# tcp-proxy first-message sniffer, in Dafny

This project models the deterministic core of a small transparent TCP
forwarder written in Go (`proxy.go`). For every accepted connection the
forwarder reads one chunk from the client. If the chunk is not empty, it
sniffs the chunk for a request line (method, target, protocol) and a Host
header. A fixed placeholder policy then checks the target. When the check
fails, the forwarder writes a synthetic "404 page not found" text back to the
client. In every case it then hands the connection and the chunk to the
relay.

The project models:

- `GoStrings`: Go's `strings.Index`, `strings.Split` (non-empty separator)
  and `strings.Join`, with `Split` and `Join` proved to be inverse to each
  other on canonical piece sequences.
- `GoFmt`: the `%d` formatting used for the Content-Length value, and a
  reader for it.
- `Proxy`:
  - the `Request` record as a class whose `Format` method fills its fields;
  - `Check`, the allow-list;
  - the rejection text;
  - the `cliWriteBuffer` partial-write loop, run against a writer given as
    the script of its replies;
  - the first-chunk decision of the accept loop.

Where the specification of the system and the code disagree, the model
follows the code:

- Only the target `/?c=index&a=test` passes `Check`. The flag starts false,
  so every other target is denied, including targets the policy never names.
  The specification instead describes unknown targets as allowed.
- The rejection text is kept verbatim. It has the status `HTTP/1.1 200 OK`,
  a header named `Data:` (not `Date:`) and bare `\n` line ends. After the
  blank line come 21 bytes (the body, then `\n\r\n`), but `Content-Length`
  advertises 18.
- Forwarding happens whether or not the rejection was written.

On a chunk whose shape the Go code cannot index, the model's `Format` reports
`Malformed` (see Findings). Such a chunk gets no rejection text and is still
forwarded. This follows the specification's "allow by default" for a chunk
that cannot be sniffed.

Bytes and characters are one type here (`string`). The clock's RFC 1123 date
is a parameter (`sendDate`). A connection's writer is a finite sequence of
`Reply(n, failed)` values: the count each `Write` call accepted and whether
it returned an error.

## Model

| member | source | states |
|---|---|---|
| GoStrings.Index | proxy.go:189 | the result is -1 when `sep` occurs nowhere in `s`, otherwise the position of an occurrence with none before it (the first occurrence, as `strings.Index` returns) |
| GoStrings.Split | proxy.go:189 | there is always at least one piece, and joining the pieces with the separator gives the input back |
| GoStrings.SplitCanonical | proxy.go:196 | every piece but the last is followed by the first occurrence of the separator, and the last piece contains none |
| GoStrings.SplitJoin | proxy.go:189-201 | splitting the join of canonical pieces returns exactly those pieces, so `Split` and `Join` are inverse bijections |
| GoStrings.SplitPieceFree | proxy.go:196-200 | no piece `Split` returns contains the separator |
| GoFmt.Decimal | proxy.go:123 | `%d` yields a non-empty run of digits with no leading zero |
| GoFmt.DecimalRoundTrip | proxy.go:123 | reading the digits `%d` printed gives back the printed number |
| Proxy.FormatAsWritten | proxy.go:185-203 | where Go's indexing is in range, the method, URL and protocol hold no space and the host holds no `": "` |
| Proxy.SniffParsedIff | proxy.go:189-201 | a chunk is parsed exactly when it has a `\r\n`, its first line has two spaces and its second line has a `": "`; otherwise it is `Malformed` |
| Proxy.SniffOfJoin | proxy.go:189-201 | on any chunk, the fields are tokens 0, 1 and 2 of the first line and piece 1 of the second line; further tokens, text after a second `": "` and further lines are ignored |
| Proxy.SniffRender | proxy.go:185-203 | sniffing a rendered request head returns the fields it was rendered from |
| Proxy.Request.constructor | proxy.go:115 | `new(Request)` leaves every field empty |
| Proxy.Request.Format | proxy.go:185-203 | on a parsable chunk the fields become the sniffed method, URL, protocol and host; otherwise it reports failure and changes nothing |
| Proxy.Request.Check | proxy.go:206-214 | the check holds if and only if the URL is `/?c=index&a=test`; it depends on no other field |
| Proxy.RejectionResponse | proxy.go:119-127 | for every date the text is `HTTP/1.1 200 OK\nData: <date>\nServer: HRWebSer/1.1\nContent-Length: 18\n\n404 page not found\n\r\n` |
| Proxy.BodyLengthSpelling | proxy.go:120-123 | the computed Content-Length value is the string `18` |
| Proxy.AdvertisedLength | proxy.go:120-126 | the advertised value reads back as the body's length; the body follows a blank line and is followed by three more bytes |
| Proxy.Drain | proxy.go:158-172 | the loop never makes more `Write` calls than the writer has replies |
| Proxy.DrainPrefix | proxy.go:158-172 | the accepted chunks join to a prefix of the buffer, so nothing is duplicated or skipped; they join to the whole buffer exactly when the loop stopped with nothing left |
| Proxy.DrainTrace | proxy.go:159-171 | each chunk is what its reply accepted; no reply before the last failed; the loop stops at the first error, makes no call for an empty buffer, and otherwise ends only with the script |
| Proxy.DrainSpinsOnEmptyWrites | proxy.go:159-171 | a writer that keeps accepting 0 bytes without error keeps the loop going through every reply with nothing written |
| Proxy.CliWriteBuffer | proxy.go:156-174 | the loop's accepted bytes, call count and stopping reason are those of `Drain` on the buffer and replies |
| Proxy.HandleFirstChunk | proxy.go:115-132 | the rejection is written if and only if at least one byte was read, the chunk parsed and `Check` failed; the client then receives a prefix of the rejection text; the relay gets the chunk in every case |
| Proxy.InfoRequestDenied | proxy.go:185-214 | `GET /?c=index&a=info HTTP/1.1` with `Host: localhost:9501` yields those four fields and is rejected |
| Proxy.TestRequestAllowed | proxy.go:185-214 | the same request for `/?c=index&a=test` is parsed and not rejected |
| Proxy.PingPanics | proxy.go:196-201 | the one-line chunk `ping` lies outside the shape Go can index; the hardened sniffer reports it `Malformed`, and it is not rejected |

## Left out

- The accept loop and the first read (proxy.go:83-113) are socket I/O. The chunk enters the model as a parameter of any length; the read buffer's 1024-byte bound is not modelled. If `Accept` fails, the loop does not skip the connection and goes on to use it; this is not modelled either.
- Dialing and relaying (`proxyConn`, `forwardConn`, `_forwardConn`, `sendToBuffer`, proxy.go:138-154 and 216-280) are goroutines and a first-result-wins channel over sockets. Their write loops are not modelled. `sendToBuffer` restarts from the whole buffer on every pass, and `_forwardConn` truncates its write buffer to `wbuf[:n]` instead of advancing past the written bytes.
- Command-line parsing, the pprof debug server and logging (proxy.go:17-71, `printError`, `fmt.Printf`) are process plumbing around an external flags library.
- `time.Now().Format(time.RFC1123)` (proxy.go:119) is a clock. The date is the parameter `sendDate`, taken as given.
- `cli.Close()` at the end of `cliWriteBuffer` (proxy.go:173), and the other `Close` calls, are resource handling. The model therefore does not show that a rejected client's connection is already closed when the relay starts on it.
- Conversions between `[]byte` and `string` are identity here. Bytes and characters are one type, and UTF-8 is not modelled.
- Proxy.CliWriteBuffer: the writer is a finite reply script. `OutOfReplies` means the script ended while bytes remained. The Go loop would keep calling `Write`, and on a writer that keeps returning `(0, nil)` it never ends (see `DrainSpinsOnEmptyWrites`).
- Proxy.Request.Format: Go's `Format` returns its receiver for chaining; the model returns whether it succeeded. On a chunk it cannot index, Go panics after possibly assigning some fields. The model leaves the receiver unchanged.

## Findings

| source | as written | input that shows it | evidently intended | confidence | as-written member | corrected member |
|---|---|---|---|---|---|---|
| proxy.go:196-201 | `Format` indexes `datas[1]`, `_m[1]`, `_m[2]` and `_h[1]` without checking lengths, and runs on the accept loop's goroutine with no recovery, so the panic ends the whole process (modelled by `FormatAsWritten`, defined only on `Indexable` chunks) | a first chunk `ping`: one line holding one token | report the chunk as malformed and keep serving, still forwarding the connection | not executed | Proxy.PingPanics | Proxy.Request.Format |
