/** The local control channel: one HTTP/1.0 request over a Unix domain socket, framed on the
    response side by the peer closing the connection (`requestHTTPFromUnixSocket` and
    `getHTTPBodyFromUnixSocket`). The socket library is an oracle: it opens or fails, connects or
    fails, reports a byte count for the write or fails, and then yields a script of reads. */
module Http {
  import opened Wrappers
  import opened Text

  /** The line break of the message syntax (section 2.2 of RFC 1945). */
  const LineBreak := "\r\n"

  /** The empty line that ends the head of a message: the last header's line break followed by
      an empty line (sections 4.1 and 5 of RFC 1945). */
  const Separator := "\r\n\r\n"

  // ---------------------------------------------------------------------------------------------
  // Request serialisation
  // ---------------------------------------------------------------------------------------------

  /** `s` ends with `t`. */
  predicate EndsWith(s: string, t: string)
  {
    |t| <= |s| && s[|s| - |t|..] == t
  }

  /** The request line without its line break (section 5.1 of RFC 1945). */
  function RequestLine(verb: string, query: string): string
  {
    verb + " " + query + " HTTP/1.0"
  }

  /** The entity headers sent with a body: its length in bytes (section 10.4 of RFC 1945) and
      its type; none without a body. */
  function ContentHeaders(body: string): seq<string>
  {
    if body == [] then []
    else ["Content-length: " + Decimal(|Utf8(body)|), "Content-type: application/json"]
  }

  /** The message that `requestHTTPFromUnixSocket` writes: request line, the two content headers
      for a non-empty body, an empty line, then the body. It starts with the request line and
      its line break, and ends with the empty line followed by the body. */
  function Message(verb: string, query: string, body: string): (m: string)
    ensures |m| >= |RequestLine(verb, query)| + |Separator| + |body|
    ensures m[..|RequestLine(verb, query)| + 2] == RequestLine(verb, query) + LineBreak
    ensures EndsWith(m, Separator + body)
  {
    Framed(RequestLine(verb, query), AdditionalHeaders(body), body);
    RequestLine(verb, query) + LineBreak + AdditionalHeaders(body) + LineBreak + body
  }

  /** The two content headers for a non-empty body, each ended by a line break; nothing for an
      empty one. */
  function AdditionalHeaders(body: string): (h: string)
    ensures h == [] <==> body == []
    ensures h == [] || (|h| >= 2 && h[|h| - 2..] == LineBreak)
  {
    TypeHeaderText("Content-length: " + Decimal(|Utf8(body)|) + "\r\n");
    if body != [] then "Content-length: " + Decimal(|Utf8(body)|) + "\r\n" + "Content-type: application/json\r\n"
    else ""
  }

  /** The content headers end in a line break. */
  lemma TypeHeaderText(length: string)
    ensures var h := length + "Content-type: application/json\r\n";
            |h| >= 2 && h[|h| - 2..] == LineBreak
  {
    var h := length + "Content-type: application/json\r\n";
    assert h[|h| - 2..] == "Content-type: application/json\r\n"[30..];
  }

  /** A line, its line break, lines that end in a line break, an empty line, and a body. */
  lemma Framed(line: string, h: string, body: string)
    requires h == [] || (|h| >= 2 && h[|h| - 2..] == LineBreak)
    ensures var m := line + LineBreak + h + LineBreak + body;
            && |m| >= |line| + |Separator| + |body|
            && m[..|line| + 2] == line + LineBreak
            && EndsWith(m, Separator + body)
  {
    var m := line + LineBreak + h + LineBreak + body;
    assert m == (line + LineBreak) + (h + LineBreak + body);
    if h == [] {
      assert m[|m| - |body| - 4..] == LineBreak + LineBreak + body;
    } else {
      assert m == (line + LineBreak + h[..|h| - 2]) + (LineBreak + LineBreak + body);
      assert m[|m| - |body| - 4..] == LineBreak + LineBreak + body;
    }
    assert LineBreak + LineBreak == Separator;
  }

  /** The head of a message as a reader sees it: the request line and the header lines. */
  datatype Head = Head(requestLine: string, headers: seq<string>)

  /** Reads a message back: the lines before the first empty line, and the body after it. */
  function ParseMessage(message: string): (Head, string)
  {
    var head := Components(message, Separator)[0];
    var lines := Components(head, LineBreak);
    (Head(lines[0], lines[1..]), ExtractBody(message))
  }

  /** A message without a body is the request line and an empty line. */
  lemma MessageWithoutBody(verb: string, query: string)
    ensures Message(verb, query, "") == RequestLine(verb, query) + Separator
  {
  }

  /** A reader recovers the request line, exactly the content headers the body calls for, and
      the body, provided the verb and the query contain no carriage return. */
  lemma MessageRoundTrip(verb: string, query: string, body: string)
    requires '\r' !in verb && '\r' !in query
    ensures ParseMessage(Message(verb, query, body))
         == (Head(RequestLine(verb, query), ContentHeaders(body)), body)
  {
    RequestLineFree(verb, query);
    if body == [] {
      MessageLayoutEmpty(verb, query);
      HeadOfLineOnly(RequestLine(verb, query), Message(verb, query, body), body);
    } else {
      BodyRoundTrip(verb, query, body);
    }
  }

  /** The round trip of a message with a body, through its two content headers. */
  lemma BodyRoundTrip(verb: string, query: string, body: string)
    requires '\r' !in RequestLine(verb, query) && body != []
    ensures ParseMessage(Message(verb, query, body))
         == (Head(RequestLine(verb, query), ContentHeaders(body)), body)
  {
    var length := "Content-length: " + Decimal(|Utf8(body)|);
    var kind := "Content-type: application/json";
    LengthHeaderFree(body);
    MessageLayout(verb, query, body);
    HeadOfThreeLines(RequestLine(verb, query), length, kind, Message(verb, query, body), body);
    assert ContentHeaders(body) == [length, kind];
  }

  /** Without a body the message is the request line and the empty line. */
  lemma MessageLayoutEmpty(verb: string, query: string)
    ensures Message(verb, query, []) == RequestLine(verb, query) + Separator + []
  {
    var a := verb + " " + query;
    assert a + " HTTP/1.0\r\n" + "" + "\r\n" + [] == a + " HTTP/1.0" + "\r\n\r\n" + [];
  }

  /** With a body the message is the request line, the two content headers, the empty line and
      the body, each line ended by a line break. */
  lemma MessageLayout(verb: string, query: string, body: string)
    requires body != []
    ensures Message(verb, query, body)
         == RequestLine(verb, query) + "\r\n" + ("Content-length: " + Decimal(|Utf8(body)|)) + "\r\n"
            + "Content-type: application/json" + "\r\n" + "\r\n" + body
  {
    Regroup(verb + " " + query, "Content-length: " + Decimal(|Utf8(body)|), body);
  }

  /** Moves the line breaks of the source's string literals to where the lines end. */
  lemma Regroup(a: string, length: string, body: string)
    ensures a + " HTTP/1.0\r\n" + (length + "\r\n" + "Content-type: application/json\r\n") + "\r\n" + body
         == a + " HTTP/1.0" + "\r\n" + length + "\r\n" + "Content-type: application/json" + "\r\n" + "\r\n" + body
  {
    assert " HTTP/1.0\r\n" == " HTTP/1.0" + "\r\n";
    assert "Content-type: application/json\r\n" == "Content-type: application/json" + "\r\n";
  }

  /** The request line inherits the absence of carriage returns from the verb and the query. */
  lemma RequestLineFree(verb: string, query: string)
    requires '\r' !in verb && '\r' !in query
    ensures '\r' !in RequestLine(verb, query)
  {
    var line := RequestLine(verb, query);
    forall k | 0 <= k < |line| ensures line[k] != '\r' {
      if k < |verb| { assert line[k] == verb[k]; }
      else if k == |verb| || k == |verb| + 1 + |query| { }
      else if k < |verb| + 1 + |query| { assert line[k] == query[k - |verb| - 1]; }
      else { assert line[k] == " HTTP/1.0"[k - |verb| - 1 - |query|]; }
    }
  }

  /** The Content-length header is a line without carriage returns. */
  lemma LengthHeaderFree(body: string)
    ensures '\r' !in "Content-length: " + Decimal(|Utf8(body)|)
  {
    var length := "Content-length: " + Decimal(|Utf8(body)|);
    forall k | 0 <= k < |length| ensures length[k] != '\r' {
      if k >= 16 { assert length[k] == Decimal(|Utf8(body)|)[k - 16]; }
    }
  }

  /** A message whose head is one line free of carriage returns parses into that line alone. */
  lemma HeadOfLineOnly(line: string, message: string, body: string)
    requires '\r' !in line && message == line + Separator + body
    ensures ParseMessage(message) == (Head(line, []), body)
  {
    NoOccurrenceInFree(line, Separator + body, Separator);
    assert message == line + (Separator + body);
    BodyAfterFirstSeparator(message, line, body);
    ComponentsAtFirst(message, Separator, line, body);
    NoOccurrenceInFree(line, [], LineBreak);
    assert line + [] == line;
    ComponentsWithout(line, LineBreak);
    assert Components(message, Separator)[0] == line;
    assert Components(line, LineBreak)[1..] == [];
  }

  /** A message whose head is three lines free of carriage returns parses into those lines. */
  lemma HeadOfThreeLines(line: string, length: string, kind: string, message: string, body: string)
    requires '\r' !in line && '\r' !in length && '\r' !in kind && length != [] && kind != []
    requires message == line + "\r\n" + length + "\r\n" + kind + "\r\n" + "\r\n" + body
    ensures ParseMessage(message) == (Head(line, [length, kind]), body)
  {
    var head := line + (LineBreak + (length + (LineBreak + kind)));
    assert message == head + Separator + body;
    assert message == line + (LineBreak + (length + (LineBreak + (kind + (Separator + body)))));
    HeadHasNoSeparator(line, length, kind, body);
    BodyAfterFirstSeparator(message, head, body);
    ComponentsAtFirst(message, Separator, head, body);
    HeadLines(line, length, kind);
    assert Components(message, Separator)[0] == head;
    assert [line, length, kind][1..] == [length, kind];
  }

  /** Three lines free of carriage returns, joined by line breaks, split back into themselves. */
  lemma HeadLines(line: string, length: string, kind: string)
    requires '\r' !in line && '\r' !in length && '\r' !in kind
    ensures Components(line + (LineBreak + (length + (LineBreak + kind))), LineBreak)
         == [line, length, kind]
  {
    var head := line + (LineBreak + (length + (LineBreak + kind)));
    NoOccurrenceInFree(line, LineBreak + (length + (LineBreak + kind)), LineBreak);
    ComponentsAtFirst(head, LineBreak, line, length + (LineBreak + kind));
    NoOccurrenceInFree(length, LineBreak + kind, LineBreak);
    ComponentsAtFirst(length + (LineBreak + kind), LineBreak, length, kind);
    NoOccurrenceInFree(kind, [], LineBreak);
    assert kind + [] == kind;
    ComponentsWithout(kind, LineBreak);
  }

  /** In a head made of lines free of carriage returns, joined by line breaks, the first empty
      line is the one that ends it. */
  lemma HeadHasNoSeparator(line: string, length: string, kind: string, body: string)
    requires '\r' !in line && '\r' !in length && '\r' !in kind && length != [] && kind != []
    requires length[0] != '\r' && kind[0] != '\r'
    ensures NoOccurrenceBefore(line + (LineBreak + (length + (LineBreak + (kind + (Separator + body))))),
                               Separator, |line| + 2 + |length| + 2 + |kind|)
  {
    var r4 := kind + (Separator + body);
    NoOccurrenceInFree(kind, Separator + body, Separator);
    var r3 := LineBreak + r4;
    AfterLineBreak(r4);
    NoOccurrenceConcat(LineBreak, r4, Separator, |kind|);
    var r2 := length + r3;
    NoOccurrenceInFree(length, r3, Separator);
    NoOccurrenceConcat(length, r3, Separator, 2 + |kind|);
    var r1 := LineBreak + r2;
    AfterLineBreak(r2);
    NoOccurrenceConcat(LineBreak, r2, Separator, |length| + 2 + |kind|);
    NoOccurrenceInFree(line, r1, Separator);
    NoOccurrenceConcat(line, r1, Separator, 2 + |length| + 2 + |kind|);
  }

  /** A line break followed by anything but a carriage return starts no empty line. */
  lemma AfterLineBreak(y: string)
    requires y != [] && y[0] != '\r'
    ensures NoOccurrenceBefore(LineBreak + y, Separator, 2)
  {
    var s := LineBreak + y;
    assert s[1] == '\n';
    assert s[2] == y[0];
    assert 4 <= |s| ==> s[0..4][2] == s[2];
    assert 5 <= |s| ==> s[1..5][0] == s[1];
  }

  /** The Content-length header carries the number of bytes of the body's UTF-8 encoding. */
  lemma ContentLengthValue(body: string)
    requires body != []
    ensures var header := ContentHeaders(body)[0];
            |header| > 16 && header[..16] == "Content-length: " && IsDigits(header[16..])
            && ParseDecimal(header[16..]) == |Utf8(body)|
  {
    var header := ContentHeaders(body)[0];
    assert header[16..] == Decimal(|Utf8(body)|);
    DecimalRoundTrip(|Utf8(body)|);
  }

  // ---------------------------------------------------------------------------------------------
  // Response body
  // ---------------------------------------------------------------------------------------------

  /** `getHTTPBodyFromUnixSocket`'s split: everything after the first empty line, the later
      pieces joined again with the separator they were split at. The body is always a tail of
      the response, and a non-empty one directly follows an occurrence of the separator. */
  function ExtractBody(response: string): (body: string)
    ensures |body| <= |response| && body == response[|response| - |body|..]
    ensures body != [] ==> |response| >= |body| + |Separator|
                           && OccursAt(response, Separator, |response| - |body| - |Separator|)
  {
    var parts := Components(response, Separator);
    var body := Join(parts[1..], Separator);
    JoinComponents(response, Separator);
    assert |parts| > 1 ==> response == parts[0] + Separator + body;
    assert |parts| > 1 ==> response[|parts[0]|..|parts[0]| + |Separator|] == Separator;
    body
  }

  /** Whatever follows the first separator is the body, even if it contains the separator
      itself. */
  lemma BodyAfterFirstSeparator(response: string, head: string, rest: string)
    requires response == head + Separator + rest
    requires NoOccurrenceBefore(response, Separator, |head|)
    ensures ExtractBody(response) == rest
  {
    ComponentsAtFirst(response, Separator, head, rest);
    assert Components(response, Separator)[1..] == Components(rest, Separator);
    JoinComponents(rest, Separator);
  }

  /** A response without an empty line has an empty body. */
  lemma BodyWithoutSeparator(response: string)
    requires !Contains(response, Separator)
    ensures ExtractBody(response) == []
  {
    ComponentsWithout(response, Separator);
  }

  /** It is the first occurrence in the whole response that counts, not one wholly inside the
      head: a head that ends in a line break moves the split two characters to the left. */
  lemma HeadEndingInLineBreak()
    ensures !Contains("a\r\n", Separator)
    ensures ExtractBody("a\r\n" + Separator + "x") == "\r\nx"
  {
    var response := "a\r\n" + Separator + "x";
    assert response == "a" + Separator + "\r\nx";
    assert !OccursAt(response, Separator, 0) by { assert response[0..4][0] == 'a'; }
    BodyAfterFirstSeparator(response, "a", "\r\nx");
  }

  // ---------------------------------------------------------------------------------------------
  // The exchange over the socket
  // ---------------------------------------------------------------------------------------------

  /** What one `readString()` produces: a piece of text, `nil` (the peer closed the
      connection), or a thrown error (a read timeout among them). */
  datatype ReadStep = Chunk(text: string) | Closed | ReadError

  /** The socket library's part in one exchange: whether creating the socket succeeded,
      whether setting both timeouts succeeded, whether connecting to the path succeeded, what
      `write(from:)` returned (`None` when it threw), and what the successive reads produce.
      Reads past the end of the script produce `nil`. */
  datatype Socket = Socket(created: bool, timeoutsSet: bool, connected: bool, written: Option<int>,
                           script: seq<ReadStep>)

  /** The text accumulated by the read loop: the chunks before the first read that is not one. */
  function Received(steps: seq<ReadStep>): string
    decreases |steps|
  {
    if steps == [] || !steps[0].Chunk? then [] else steps[0].text + Received(steps[1..])
  }

  /** How many times the read loop calls `readString()`: once per chunk and once more for the
      read that ends it. */
  function ReadCalls(steps: seq<ReadStep>): (n: nat)
    ensures 1 <= n <= |steps| + 1
    decreases |steps|
  {
    if steps == [] || !steps[0].Chunk? then 1 else 1 + ReadCalls(steps[1..])
  }

  /** The message reached the socket whole: it opened, connected, and the write reported exactly
      the number of bytes of the message's UTF-8 encoding. */
  predicate Delivered(socket: Socket, message: string)
  {
    socket.created && socket.timeoutsSet && socket.connected && socket.written == Some(|Utf8(message)|)
  }

  /** The result of one exchange: nothing when creating the socket, setting its timeouts or
      connecting fails, or when the write fails or reports any count but the number of bytes of
      the message's UTF-8 encoding; otherwise all the text read until the connection closed or a
      read failed. */
  function Exchange(socket: Socket, verb: string, query: string, body: string): (r: Option<string>)
    ensures r.None? <==> || !socket.created || !socket.timeoutsSet || !socket.connected
                         || socket.written.None? || socket.written.value != |Utf8(Message(verb, query, body))|
  {
    if Delivered(socket, Message(verb, query, body)) then Some(Received(socket.script)) else None
  }

  /** A read that is not a chunk ends the response; nothing after it is read. */
  lemma {:induction false} ReceivedStopsAtEnd(chunks: seq<ReadStep>, last: ReadStep, rest: seq<ReadStep>)
    requires forall k :: 0 <= k < |chunks| ==> chunks[k].Chunk?
    requires !last.Chunk?
    ensures Received(chunks + [last] + rest) == Received(chunks)
    ensures ReadCalls(chunks + [last] + rest) == |chunks| + 1
    decreases |chunks|
  {
    var steps := chunks + [last] + rest;
    if chunks == [] {
      assert steps[0] == last;
    } else {
      assert steps[0] == chunks[0];
      assert steps[1..] == chunks[1..] + [last] + rest;
      ReceivedStopsAtEnd(chunks[1..], last, rest);
    }
  }

  /** `requestHTTPFromUnixSocket`: builds the message, gives up without reading when the socket
      cannot be created, configured or connected or the write is short or fails, and otherwise
      steps until the peer closes the connection or a read fails. `closed` tells whether the
      socket is closed explicitly: on every path once the timeouts are set, but not when setting
      them throws and the error handler returns at once. */
  method RequestHTTP(socket: Socket, verb: string, query: string, body: string)
    returns (response: Option<string>, readCalls: nat, closed: bool)
    ensures response == Exchange(socket, verb, query, body)
    ensures !Delivered(socket, Message(verb, query, body)) ==> response == None && readCalls == 0
    ensures Delivered(socket, Message(verb, query, body)) ==> readCalls == ReadCalls(socket.script)
    ensures closed <==> socket.created && socket.timeoutsSet
  {
    if !socket.created || !socket.timeoutsSet {
      return None, 0, false;
    }
    if !socket.connected {
      return None, 0, true;
    }
    var message := Message(verb, query, body);
    var k := socket.written;
    if k.None? || k.value != |Utf8(message)| {
      return None, 0, true;
    }
    var result := "";
    var i := 0;
    readCalls := 0;
    while true
      invariant 0 <= i <= |socket.script| && readCalls == i
      invariant forall j :: 0 <= j < i ==> socket.script[j].Chunk?
      invariant Received(socket.script) == result + Received(socket.script[i..])
      invariant ReadCalls(socket.script) == readCalls + ReadCalls(socket.script[i..])
      decreases |socket.script| - i
    {
      var step := if i < |socket.script| then socket.script[i] else Closed;
      readCalls := readCalls + 1;
      if step.Chunk? {
        assert socket.script[i..][1..] == socket.script[i + 1..];
        result := result + step.text;
        i := i + 1;
      } else {
        assert Received(socket.script[i..]) == [] && ReadCalls(socket.script[i..]) == 1;
        break;
      }
    }
    assert result + [] == result;
    response := Some(result);
    closed := true;
  }

  /** `getHTTPBodyFromUnixSocket`: the body of the response, or nothing when the exchange failed. */
  method GetBody(socket: Socket, verb: string, query: string, body: string) returns (result: Option<string>)
    ensures result.Some? <==> Delivered(socket, Message(verb, query, body))
    ensures result.Some? ==> result.value == ExtractBody(Received(socket.script))
  {
    var response, _, _ := RequestHTTP(socket, verb, query, body);
    if response.None? {
      return None;
    }
    result := Some(ExtractBody(response.value));
  }
}
