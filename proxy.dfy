/** The deterministic core of the TCP proxy in proxy.go: the sniffer that
    reads a request line and a Host header out of the first chunk a client
    sends, the fixed allow-list check, the synthetic "not found" text written
    to rejected clients, the partial-write loop that writes it, and the
    decision taken for each accepted connection. Sockets, goroutines and the
    clock are left out; the date reaches the model as a string and a
    connection's writer as the script of replies it gives. */
module Proxy {
  import opened GoStrings
  import opened GoFmt

  const CRLF := "\r\n"
  const SPACE := " "
  const HEADER_SEP := ": "

  /** The only target the placeholder policy lets through. */
  const TEST_URL := "/?c=index&a=test"
  /** The target the policy names as denied; every other one is denied too. */
  const INFO_URL := "/?c=index&a=info"

  // ---------------------------------------------------------------------
  // Sniffing the first chunk
  // ---------------------------------------------------------------------

  /** The four fields `Request.Format` fills, as a value. */
  datatype Descriptor = Descriptor(Method: string, URL: string, Proto: string, Host: string)

  datatype SniffResult = Parsed(request: Descriptor) | Malformed

  /** The shape of chunk on which every index in `Request.Format` is in
      range: two lines, three space-separated tokens on the first, and a
      `": "` on the second. On any other chunk the Go code panics. */
  predicate Indexable(buf: string) {
    var lines := Split(buf, CRLF);
    |lines| >= 2 && |Split(lines[0], SPACE)| >= 3 && |Split(lines[1], HEADER_SEP)| >= 2
  }

  /** `Request.Format` as written: the fields positionally, defined only
      where Go's unchecked indexing does not panic. The first three tokens
      hold no space and the host holds no `": "`. */
  function FormatAsWritten(buf: string): (d: Descriptor)
    requires Indexable(buf)
    ensures Index(d.Method, SPACE) == -1 && Index(d.URL, SPACE) == -1 && Index(d.Proto, SPACE) == -1
    ensures Index(d.Host, HEADER_SEP) == -1
  {
    var lines := Split(buf, CRLF);
    var tokens := Split(lines[0], SPACE);
    var header := Split(lines[1], HEADER_SEP);
    SplitPieceFree(lines[0], SPACE, 0);
    SplitPieceFree(lines[0], SPACE, 1);
    SplitPieceFree(lines[0], SPACE, 2);
    SplitPieceFree(lines[1], HEADER_SEP, 1);
    Descriptor(tokens[0], tokens[1], tokens[2], header[1])
  }

  /** The hardened sniffer: `Malformed` where the Go code would panic. */
  function Sniff(buf: string): SniffResult {
    if Indexable(buf) then Parsed(FormatAsWritten(buf)) else Malformed
  }

  /** The text of `s` before the first `sep`, or all of `s`. */
  function Before(s: string, sep: string): string
    requires |sep| > 0
  {
    var k := Index(s, sep);
    if k == -1 then s else s[..k]
  }

  /** The text of `s` after the first `sep`. */
  function After(s: string, sep: string): string
    requires |sep| > 0 && Index(s, sep) >= 0
  {
    s[Index(s, sep) + |sep|..]
  }

  /** The error cases, stated through the separators themselves: a chunk is
      parsed exactly when it has a line break, its first line has two
      spaces, and its second line has a `": "`. */
  lemma SniffParsedIff(buf: string)
    ensures Sniff(buf).Parsed? <==>
      Index(buf, CRLF) >= 0 &&
      Index(Before(buf, CRLF), SPACE) >= 0 &&
      Index(After(Before(buf, CRLF), SPACE), SPACE) >= 0 &&
      Index(Before(After(buf, CRLF), CRLF), HEADER_SEP) >= 0
  {
    var k := Index(buf, CRLF);
    var lines := Split(buf, CRLF);
    if k >= 0 {
      assert lines[1] == Split(After(buf, CRLF), CRLF)[0];
      SplitHead(After(buf, CRLF), CRLF);
    }
    SplitHead(buf, CRLF);
    var first := lines[0];
    var j := Index(first, SPACE);
    if j >= 0 {
      SplitHead(After(first, SPACE), SPACE);
    }
    if k >= 0 {
      SplitHead(lines[1], HEADER_SEP);
    }
  }

  /** The first piece of `Split` is the text before the first separator. */
  lemma SplitHead(s: string, sep: string)
    requires |sep| > 0
    ensures Split(s, sep)[0] == Before(s, sep)
    ensures |Split(s, sep)| >= 2 <==> Index(s, sep) >= 0
  {
  }

  /** Every chunk is the join of canonical lines, tokens and header pieces
      (by `Split`'s contract and `SplitCanonical`); on such a join the
      sniffer returns tokens 0, 1 and 2 of the first line and piece 1 of the
      second, whatever further tokens, header pieces and lines follow. */
  lemma SniffOfJoin(tokens: seq<string>, header: seq<string>, more: seq<string>)
    requires |tokens| >= 3 && Canonical(tokens, SPACE)
    requires |header| >= 2 && Canonical(header, HEADER_SEP)
    requires Canonical([Join(tokens, SPACE), Join(header, HEADER_SEP)] + more, CRLF)
    ensures Sniff(Join([Join(tokens, SPACE), Join(header, HEADER_SEP)] + more, CRLF))
         == Parsed(Descriptor(tokens[0], tokens[1], tokens[2], header[1]))
  {
    var lines := [Join(tokens, SPACE), Join(header, HEADER_SEP)] + more;
    SplitJoin(lines, CRLF);
    SplitJoin(tokens, SPACE);
    SplitJoin(header, HEADER_SEP);
  }

  /** A request head with one Host header, as a client would send it. */
  function Render(d: Descriptor): string {
    d.Method + " " + d.URL + " " + d.Proto + "\r\n" + "Host: " + d.Host + "\r\n\r\n"
  }

  /** Fields that survive `Render`: no space in the tokens, no carriage
      return anywhere, and no `": "` in the host. */
  predicate Renderable(d: Descriptor) {
    ' ' !in d.Method && ' ' !in d.URL && ' ' !in d.Proto &&
    '\r' !in d.Method + d.URL + d.Proto + d.Host &&
    Index(d.Host, HEADER_SEP) == -1
  }

  /** The sniffer is the inverse of `Render`. */
  lemma SniffRender(d: Descriptor)
    requires Renderable(d)
    ensures Sniff(Render(d)) == Parsed(d)
  {
    var tokens := [d.Method, d.URL, d.Proto];
    var header := ["Host", d.Host];
    var line0 := d.Method + " " + d.URL + " " + d.Proto;
    var line1 := "Host: " + d.Host;
    var lines := [line0, line1, "", ""];
    assert Join(tokens[2..], SPACE) == d.Proto;
    assert Join(tokens[1..], SPACE) == d.URL + " " + d.Proto;
    assert Join(tokens, SPACE) == line0;
    assert Join(header[1..], HEADER_SEP) == d.Host;
    assert Join(header, HEADER_SEP) == line1;
    assert Join(lines[3..], CRLF) == "";
    assert Join(lines[2..], CRLF) == "\r\n";
    assert Join(lines[1..], CRLF) == line1 + "\r\n\r\n";
    assert Join(lines, CRLF) == Render(d);

    IndexAfterMissingChar(d.Method, SPACE);
    IndexAfterMissingChar(d.URL, SPACE);
    IndexMissingChar(d.Proto, SPACE, 0);
    assert Canonical(tokens[2..], SPACE);
    assert Canonical(tokens[1..], SPACE);
    assert Canonical(tokens, SPACE);

    IndexAfterMissingChar("Host", HEADER_SEP);
    assert Canonical(header[1..], HEADER_SEP);
    assert Canonical(header, HEADER_SEP);

    IndexAfterMissingChar(line0, CRLF);
    IndexAfterMissingChar(line1, CRLF);
    IndexAfterMissingChar("", CRLF);
    IndexMissingChar("", CRLF, 0);
    assert "" + CRLF == CRLF;
    assert Canonical(lines[3..], CRLF);
    assert Canonical(lines[2..], CRLF);
    assert Canonical(lines[1..], CRLF);
    assert Canonical(lines, CRLF);

    assert lines == [Join(tokens, SPACE), Join(header, HEADER_SEP)] + ["", ""];
    SniffOfJoin(tokens, header, ["", ""]);
  }

  /** The object `Format` fills and `Check` classifies. */
  class Request {
    var Method: string
    var URL: string
    var Proto: string
    var Host: string

    /** `new(Request)`: every field is Go's zero string. */
    constructor ()
      ensures Method == "" && URL == "" && Proto == "" && Host == ""
    {
      Method, URL, Proto, Host := "", "", "", "";
    }

    function Fields(): Descriptor
      reads this
    {
      Descriptor(Method, URL, Proto, Host)
    }

    /** Fills the fields from the first chunk; on a chunk the Go code would
        index past the end of, reports failure and changes nothing. */
    method Format(buf: string) returns (ok: bool)
      modifies this
      ensures ok <==> Sniff(buf).Parsed?
      ensures ok ==> Fields() == Sniff(buf).request
      ensures !ok ==> unchanged(this)
    {
      var datas := Split(buf, CRLF);
      var m := Split(datas[0], SPACE);
      if |m| < 3 || |datas| < 2 {
        return false;
      }
      var h := Split(datas[1], HEADER_SEP);
      if |h| < 2 {
        return false;
      }
      Method := m[0];
      URL := m[1];
      Proto := m[2];
      Host := h[1];
      ok := true;
    }

    /** The placeholder policy: the flag starts false, so only the test
        target is allowed and every other one, the info target included,
        is denied. */
    function Check(): (allowed: bool)
      reads this
      ensures allowed <==> URL == TEST_URL
    {
      if URL == TEST_URL then true
      else if URL == INFO_URL then false
      else false
    }
  }

  // ---------------------------------------------------------------------
  // The rejection text
  // ---------------------------------------------------------------------

  const NOT_FOUND_BODY := "404 page not found"

  /** The text written back to a denied client, for the date the clock gave;
      its Content-Length is computed from the body. */
  function RejectionResponse(sendDate: string): (text: string)
    ensures text == "HTTP/1.1 200 OK\nData: " + sendDate + "\nServer: HRWebSer/1.1\n" +
      "Content-Length: 18\n" + "\n" + "404 page not found\n" + "\r\n"
  {
    var err := "HTTP/1.1 200 OK\nData: " + sendDate + "\nServer: HRWebSer/1.1\n";
    var err := err + ("Content-Length: " + Decimal(|NOT_FOUND_BODY|) + "\n");
    var err := err + "\n";
    var err := err + (NOT_FOUND_BODY + "\n");
    BodyLengthSpelling();
    assert "Content-Length: " + Decimal(|NOT_FOUND_BODY|) + "\n" == "Content-Length: 18\n";
    err + "\r\n"
  }

  /** `%d` of the body's length prints "18". */
  lemma BodyLengthSpelling()
    ensures Decimal(|NOT_FOUND_BODY|) == "18"
  {
  }

  /** The advertised length reads back as the length of the body, while
      three more bytes follow the body before the text ends. */
  lemma AdvertisedLength(sendDate: string)
    ensures ParseDecimal(Decimal(|NOT_FOUND_BODY|)) == |NOT_FOUND_BODY|
    ensures var text := RejectionResponse(sendDate);
      text[|text| - |NOT_FOUND_BODY| - 3..] == NOT_FOUND_BODY + "\n\r\n" &&
      text[|text| - |NOT_FOUND_BODY| - 5..|text| - |NOT_FOUND_BODY| - 3] == "\n\n"
  {
    DecimalRoundTrip(|NOT_FOUND_BODY|);
  }

  // ---------------------------------------------------------------------
  // cliWriteBuffer: writing until the buffer is empty or a write fails
  // ---------------------------------------------------------------------

  /** One call of the connection's `Write`: how many bytes it accepted and
      whether it returned an error. */
  datatype Reply = Reply(n: nat, failed: bool)

  /** Why the write loop ended: the buffer was emptied, a write failed, or
      the writer's script ended while bytes remained. */
  datatype Stop = Drained | WriteError | OutOfReplies

  /** What the loop did: the chunk each successful write accepted, the
      number of `Write` calls, and why it stopped. */
  datatype Progress = Progress(chunks: seq<string>, calls: nat, stop: Stop)

  function Concat(chunks: seq<string>): string
  {
    if |chunks| == 0 then "" else chunks[0] + Concat(chunks[1..])
  }

  lemma {:induction false} ConcatSnoc(chunks: seq<string>, c: string)
    ensures Concat(chunks + [c]) == Concat(chunks) + c
    decreases |chunks|
  {
    if |chunks| > 0 {
      assert (chunks + [c])[1..] == chunks[1..] + [c];
      ConcatSnoc(chunks[1..], c);
    }
  }

  /** The writer keeps the `io.Writer` promise that a successful write
      accepts no more bytes than it was offered. */
  predicate Conforms(rest: string, replies: seq<Reply>)
    decreases |replies|
  {
    |rest| == 0 || |replies| == 0 || replies[0].failed ||
    (replies[0].n <= |rest| && Conforms(rest[replies[0].n..], replies[1..]))
  }

  /** The loop of `cliWriteBuffer` as a function of the rest of the buffer
      and the writer's replies. */
  function Drain(rest: string, replies: seq<Reply>): (p: Progress)
    requires Conforms(rest, replies)
    ensures p.calls <= |replies|
    decreases |replies|
  {
    if |rest| == 0 then Progress([], 0, Drained)
    else if |replies| == 0 then Progress([], 0, OutOfReplies)
    else if replies[0].failed then Progress([], 1, WriteError)
    else
      var n := replies[0].n;
      var q := Drain(rest[n..], replies[1..]);
      Progress([rest[..n]] + q.chunks, q.calls + 1, q.stop)
  }

  /** No duplicates and no gaps: the accepted chunks join to a prefix of the
      buffer, and to the whole buffer exactly when the loop stopped because
      nothing remained. */
  lemma {:induction false} DrainPrefix(rest: string, replies: seq<Reply>)
    requires Conforms(rest, replies)
    ensures var w := Concat(Drain(rest, replies).chunks);
      |w| <= |rest| && w == rest[..|w|] &&
      (Drain(rest, replies).stop == Drained <==> w == rest)
    decreases |replies|
  {
    if |rest| > 0 && |replies| > 0 && !replies[0].failed {
      var n := replies[0].n;
      var q := Drain(rest[n..], replies[1..]);
      var c := rest[..n];
      DrainPrefix(rest[n..], replies[1..]);
      assert ([c] + q.chunks)[1..] == q.chunks;
      assert Concat([c] + q.chunks) == c + Concat(q.chunks);
      assert rest == c + rest[n..];
    }
  }

  /** One successful write of a non-empty rest: its chunk, then the rest of
      the run on what it left. */
  lemma DrainStep(rest: string, replies: seq<Reply>)
    requires Conforms(rest, replies)
    requires |rest| > 0 && |replies| > 0 && !replies[0].failed
    ensures Conforms(rest[replies[0].n..], replies[1..])
    ensures var q := Drain(rest[replies[0].n..], replies[1..]);
      Drain(rest, replies) == Progress([rest[..replies[0].n]] + q.chunks, q.calls + 1, q.stop)
  {
  }

  /** The calls the loop made: each chunk is what the matching reply
      accepted, no reply before the last failed, and the loop stops at the
      first failure, at once on an empty buffer, and otherwise only when
      the script ends. */
  lemma {:induction false} DrainTrace(rest: string, replies: seq<Reply>)
    requires Conforms(rest, replies)
    ensures var p := Drain(rest, replies);
      p.calls == |p.chunks| + (if p.stop == WriteError then 1 else 0) &&
      (forall i :: 0 <= i < |p.chunks| ==> !replies[i].failed && |p.chunks[i]| == replies[i].n) &&
      (p.stop == WriteError ==> replies[|p.chunks|].failed) &&
      (p.stop == OutOfReplies ==> p.calls == |replies|) &&
      (|rest| == 0 ==> p.calls == 0)
    decreases |replies|
  {
    if |rest| > 0 && |replies| > 0 && !replies[0].failed {
      var n := replies[0].n;
      DrainTrace(rest[n..], replies[1..]);
      var q := Drain(rest[n..], replies[1..]);
      var p := Drain(rest, replies);
      assert p.chunks == [rest[..n]] + q.chunks;
      forall i | 0 <= i < |p.chunks|
        ensures !replies[i].failed && |p.chunks[i]| == replies[i].n
      {
        if i > 0 {
          assert p.chunks[i] == q.chunks[i - 1];
          assert replies[i] == replies[1..][i - 1];
        }
      }
    }
  }

  /** A writer that keeps accepting nothing without an error never lets the
      loop finish: it runs through the whole script and writes nothing. */
  lemma {:induction false} DrainSpinsOnEmptyWrites(rest: string, replies: seq<Reply>)
    requires |rest| > 0
    requires forall i :: 0 <= i < |replies| ==> replies[i] == Reply(0, false)
    ensures Conforms(rest, replies)
    ensures var p := Drain(rest, replies);
      p.stop == OutOfReplies && p.calls == |replies| && Concat(p.chunks) == ""
    decreases |replies|
  {
    if |replies| > 0 {
      assert rest[0..] == rest;
      DrainSpinsOnEmptyWrites(rest, replies[1..]);
      var q := Drain(rest, replies[1..]);
      assert Concat([rest[..0]] + q.chunks) == rest[..0] + Concat(q.chunks);
    }
  }

  /** `cliWriteBuffer`: offers the unwritten rest of `buf` to the writer
      until nothing remains or a write fails, advancing past the bytes each
      write accepted. Returns the bytes the writer accepted. */
  method CliWriteBuffer(buf: string, replies: seq<Reply>) returns (written: string, calls: nat, stop: Stop)
    requires Conforms(buf, replies)
    ensures var p := Drain(buf, replies);
      written == Concat(p.chunks) && calls == p.calls && stop == p.stop
  {
    var wbuf := buf;
    ghost var total := Drain(buf, replies);
    ghost var done: seq<string> := [];
    written := "";
    calls := 0;
    while true
      invariant calls <= |replies|
      invariant written == Concat(done)
      invariant Conforms(wbuf, replies[calls..])
      invariant var p := Drain(wbuf, replies[calls..]);
        total == Progress(done + p.chunks, calls + p.calls, p.stop)
      decreases |replies| - calls
    {
      ghost var rs := replies[calls..];
      if |wbuf| == 0 {
        assert done + [] == done;
        stop := Drained;
        return;
      }
      if calls == |replies| {
        assert rs == [];
        assert done + [] == done;
        stop := OutOfReplies;
        return;
      }
      var reply := replies[calls];
      assert rs[0] == reply && rs[1..] == replies[calls + 1..];
      calls := calls + 1;
      if reply.failed {
        assert done + [] == done;
        stop := WriteError;
        return;
      }
      var chunk := wbuf[..reply.n];
      DrainStep(wbuf, rs);
      ConcatSnoc(done, chunk);
      ghost var q := Drain(wbuf[reply.n..], replies[calls..]);
      assert done + ([chunk] + q.chunks) == (done + [chunk]) + q.chunks;
      written := written + chunk;
      done := done + [chunk];
      wbuf := wbuf[reply.n..];
    }
  }

  // ---------------------------------------------------------------------
  // The first chunk of an accepted connection
  // ---------------------------------------------------------------------

  /** The rejection text is sent exactly when at least one byte was read,
      the chunk parsed, and its target is not the allowed one. */
  predicate Rejects(nr: int, sniffed: SniffResult) {
    nr > 0 && sniffed.Parsed? && sniffed.request.URL != TEST_URL
  }

  /** What the accept loop does with the chunk its single read returned:
      sniff it when it is not empty, write the rejection text if the check
      fails, and then hand the same chunk to the relay in every case. */
  method HandleFirstChunk(chunk: string, sendDate: string, replies: seq<Reply>)
    returns (rejected: bool, toClient: string, forwarded: string)
    requires Conforms(RejectionResponse(sendDate), replies)
    ensures rejected <==> Rejects(|chunk|, Sniff(chunk))
    ensures toClient == if rejected then Concat(Drain(RejectionResponse(sendDate), replies).chunks) else ""
    ensures rejected ==>
      |toClient| <= |RejectionResponse(sendDate)| && toClient == RejectionResponse(sendDate)[..|toClient|]
    ensures forwarded == chunk
  {
    var r := new Request();
    rejected := false;
    toClient := "";
    if |chunk| > 0 {
      var ok := r.Format(chunk);
      if ok && !r.Check() {
        var errBuf := RejectionResponse(sendDate);
        var calls, stop;
        toClient, calls, stop := CliWriteBuffer(errBuf, replies);
        DrainPrefix(errBuf, replies);
        rejected := true;
      }
    }
    forwarded := chunk;
  }

  // ---------------------------------------------------------------------
  // Concrete chunks
  // ---------------------------------------------------------------------

  /** The example fields have the shape `Render` needs. */
  lemma ExampleRenderable(url: string)
    requires url == INFO_URL || url == TEST_URL
    ensures Renderable(Descriptor("GET", url, "HTTP/1.1", "localhost:9501"))
  {
    var d := Descriptor("GET", url, "HTTP/1.1", "localhost:9501");
    assert ' ' !in d.Method && ' ' !in d.URL && ' ' !in d.Proto;
    assert '\r' !in d.Method && '\r' !in d.URL && '\r' !in d.Proto && '\r' !in d.Host;
    assert '\r' !in d.Method + d.URL + d.Proto + d.Host;
    IndexMissingChar(d.Host, HEADER_SEP, 1);
  }

  /** The request "GET /?c=index&a=info HTTP/1.1" with "Host: localhost:9501"
      is parsed field by field and denied. */
  lemma InfoRequestDenied()
    ensures var d := Descriptor("GET", INFO_URL, "HTTP/1.1", "localhost:9501");
      Sniff(Render(d)) == Parsed(d) && Rejects(|Render(d)|, Sniff(Render(d)))
  {
    ExampleRenderable(INFO_URL);
    SniffRender(Descriptor("GET", INFO_URL, "HTTP/1.1", "localhost:9501"));
  }

  /** The same request for the test target is parsed and allowed. */
  lemma TestRequestAllowed()
    ensures var d := Descriptor("GET", TEST_URL, "HTTP/1.1", "localhost:9501");
      Sniff(Render(d)) == Parsed(d) && !Rejects(|Render(d)|, Sniff(Render(d)))
  {
    ExampleRenderable(TEST_URL);
    SniffRender(Descriptor("GET", TEST_URL, "HTTP/1.1", "localhost:9501"));
  }

  /** A one-line chunk such as "ping" is outside the shape the Go code can
      index, so `Format` as written panics on it; the hardened sniffer
      reports it malformed and the connection is forwarded without a
      rejection. */
  lemma PingPanics()
    ensures !Indexable("ping")
    ensures Sniff("ping") == Malformed && !Rejects(4, Sniff("ping"))
  {
  }
}
