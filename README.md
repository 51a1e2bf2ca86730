# networking-rs request handler and thread pool, in Dafny

This project models the three toy TCP servers of networking-rs: `st-server`, `mt-server` and `async-server`.
Each one reads the first line of a connection, splits it into method, path and protocol tokens, lets only
`GET` through (compared ASCII-case-insensitively), looks the path up in a fixed table, and writes
`HTTP/1.1 <status>\r\nContent-Length: <n>\r\n\r\n<body>`, or the bare line
`HTTP/1.1 405 Method Not Allowed\r\n\r\n` for any other method.

The two pooled servers also keep a `ThreadPool`. In `async-server` the pool holds a worker list and an
optional channel `Sender`: `new` builds workers `0..n-1`, `execute` sends through the sender, and `Drop`
takes the sender and then every worker's thread handle in order. In `mt-server` the pool holds only the
worker list, and `execute` does nothing.

Layout:

- `wrappers.dfy` has `Option`.
- `threads.dfy` has the `JoinHandle` and `Job` tokens that both pools use. A thread handle carries only
  its worker's id, and a job only names its connection.
- `tokenizer.dfy` models `split_whitespace` as `NextToken`, one step of the iterator, and `Tokens`, the whole
  list. Its round trip with `JoinWithSpaces` is proved there. Module `RequestLines` gives the token lists
  of request lines built from given tokens.
- `decimal.dfy` models `usize::to_string` as `ToDecimal`, together with the parser a client would use
  (`ParseDecimal`). The round trip is proved in both directions.
- `wire.dfy` has the response template (`FormatResponse`), the fixed 405 reply, and `ParseResponse`, the
  inverse a client would apply.
- `replies.dfy` has the route bodies and statuses, and the exact replies built from them.
- `handler.dfy` has `handle_connection` (`Handle`), parameterised by a route table. It takes two inputs:
  what `lines_itr.next()` returned (`Eof`, `ReadError` or `Line`) and whether `write_all` succeeds.
- `async_server.dfy`, `mt_server.dfy` and `st_server.dfy` each hold that server's route table, the
  complete behaviour of its handler, and its pool (a class) where it has one.

The write to the stream is an input. A failed write of the 405 line is a panic, because that branch
calls `.unwrap()`. A failed write of any other reply is only logged, so the outcome is
`Write(response, false)`. Every written response is proved to be ASCII, so its length in characters
is its length in bytes.

Points where the code behaves differently from what a reader might expect, all modelled as written:

- the 404 status is `404 NOT FOUND`;
- a request line with fewer than three tokens panics (`Panic(MissingToken)`) instead of being refused;
- `Drop` joins the workers in id order;
- `execute` cannot be called after `Drop`, because `Drop` consumes the pool, so the model makes the
  sender's presence a precondition instead of an error result.

## Model

| member | source | states |
|---|---|---|
| `Tokenizer.NextToken` | async-server/src/main.rs:135-138 | definition of one `next()` step of `split_whitespace`, described by `NextTokenSpec` and `NextTokenOfWord` |
| `Tokenizer.Tokens` | async-server/src/main.rs:135 | definition of the whole token list of a line, described by `TokensWellFormed`, `TokensSkipLeading` and `TokensOfJoin` |
| `Tokenizer.SkipWhitespaceSpec` | async-server/src/main.rs:135 | skipping leading whitespace drops exactly a whitespace prefix and leaves the rest as it was |
| `Tokenizer.SplitWordSpec` | async-server/src/main.rs:135 | a token is cut as a whitespace-free prefix, and what follows it is empty or starts with whitespace |
| `Tokenizer.NextTokenSpec` | async-server/src/main.rs:135-138 | the iterator yields `None` exactly when only whitespace is left; otherwise it yields a nonempty whitespace-free token that follows only whitespace and is followed by a boundary |
| `Tokenizer.TokensWellFormed` | async-server/src/main.rs:135 | every token of a line is nonempty and contains no whitespace |
| `Tokenizer.TokensSkipLeading` | async-server/src/main.rs:135 | leading whitespace does not change the token list |
| `Tokenizer.NextTokenOfWord` | async-server/src/main.rs:135-136 | a whitespace-free word followed by a boundary is exactly the iterator's next item |
| `Tokenizer.TokensOfJoin` | async-server/src/main.rs:135 | splitting a space-joined list of valid tokens gives the same list back |
| `RequestLines.RequestLineTokens` | async-server/src/main.rs:135-138 | `m + " " + p + " " + v` splits into exactly `[m, p, v]` |
| `Decimal.ToDecimal` | async-server/src/main.rs:160 | the length text is nonempty, all digits, and has no leading zero unless it is `0` |
| `Decimal.ParseToDecimal` | async-server/src/main.rs:160 | reading the length text back gives the number written |
| `Decimal.ToDecimalOfValue` | async-server/src/main.rs:160 | every canonical digit string is the text written for its own value (the other direction of the round trip) |
| `Wire.FormatResponse` | async-server/src/main.rs:160-161 | definition of the `format!` reply template, described by `FormatResponseParses` and `FormatResponseAscii` |
| `Wire.MethodNotAllowedText` | async-server/src/main.rs:143 | the 405 reply is exactly `HTTP/1.1 405 Method Not Allowed\r\n\r\n` |
| `Wire.MethodNotAllowedParses` | async-server/src/main.rs:143 | the 405 reply reads back as status `405 Method Not Allowed` with no Content-Length and an empty body |
| `Wire.MethodNotAllowedAscii` | async-server/src/main.rs:143 | the 405 reply is ASCII, so its `as_bytes` has one byte per character |
| `Wire.FormatResponseParses` | async-server/src/main.rs:160-161 | a formatted reply reads back as its status, with a Content-Length equal to the body's length, followed by that body |
| `Wire.FormatResponseAscii` | async-server/src/main.rs:160-163 | a reply built from ASCII status and body is ASCII |
| `Replies.StatusBodyReply` | async-server/src/main.rs:147-161 | the `/` reply has a 16-character body and is `HTTP/1.1 200 OK`, `Content-Length: 16`, a blank line and `{"status": "ok"}` |
| `Replies.EmptyOkReply` | async-server/src/main.rs:151-161 | the `/slow` reply is `HTTP/1.1 200 OK`, `Content-Length: 0` and a blank line |
| `Replies.NotFoundReply` | async-server/src/main.rs:155-161 | the fallback reply is `HTTP/1.1 404 NOT FOUND`, `Content-Length: 0` and a blank line |
| `Replies.IndexBodyReply` | st-server/src/main.rs:67-76 | the `/index.html` reply has a 22-character body and is `HTTP/1.1 200 OK`, `Content-Length: 22`, a blank line and `<html><p>hi</p></html>` |
| `Replies.RouteTextsSafe` | async-server/src/main.rs:147-158 | the statuses and bodies are ASCII, and no status contains a CR |
| `Handler.EqIgnoreAsciiCase` | async-server/src/main.rs:142 | definition of `eq_ignore_ascii_case`: equal lengths, with the characters equal after ASCII lower-casing; described through `IsGetSpelling` |
| `Handler.IsGet` | async-server/src/main.rs:142 | definition of the method gate, described by `IsGetSpelling` |
| `Handler.RequestParts` | async-server/src/main.rs:135-138 | definition of the three `info_parts.next()` calls, described by `RequestPartsAreTokens` |
| `Handler.Lookup` | async-server/src/main.rs:147-158 | definition of the `match path`: a path in the table gets its arm, and any other path gets the empty `404 NOT FOUND`; described by `ReplyBySpelling` |
| `Handler.Reply` | async-server/src/main.rs:142-170 | definition of the handler after tokenising (the gate, the lookup, the formatting and the write), described by `ReplyBySpelling`, `ReplyReadsBack` and `FormattedIsNot405` |
| `Handler.Handle` | async-server/src/main.rs:113-171 | definition of `handle_connection` over a route table, described by `HandleByTokens`, `LaterTokensIgnored` and `ResponseReadsBack` |
| `Handler.IsGetSpelling` | async-server/src/main.rs:142 | the case-insensitive comparison with `GET` accepts exactly the eight case variants of `GET` |
| `Handler.RequestPartsAreTokens` | async-server/src/main.rs:135-138 | the three `next().unwrap()` calls see the first three tokens, or run out when there are fewer than three |
| `Handler.HandleByTokens` | async-server/src/main.rs:119-161 | no line or a read error gives no reply; fewer than three tokens panic; otherwise the reply depends on the first two tokens only |
| `Handler.ReplyBySpelling` | async-server/src/main.rs:142-161 | a method outside the GET spellings gets the 405 line (or a panic if that write fails) with no path lookup; otherwise the reply is the route's status and body |
| `Handler.LaterTokensIgnored` | async-server/src/main.rs:135-140 | two lines that agree on the method and the path get the same outcome, whatever their protocol or later tokens |
| `Handler.FormattedIsNot405` | async-server/src/main.rs:143-161 | a formatted reply is never the 405 line, because it carries a Content-Length |
| `Handler.ReplyReadsBack` | async-server/src/main.rs:142-161 | for a well-formed table, every reply written is ASCII and parses back; its Content-Length is absent exactly for the 405 line, and otherwise equals the length of the body, which is the route's body |
| `Handler.ResponseReadsBack` | async-server/src/main.rs:119-163 | the same for the whole handler: every write comes from a line with three tokens and reads back with a correct Content-Length |
| `AsyncServer.HandleConnection` | async-server/src/main.rs:113-171 | definition of async-server's `handle_connection`: `Handle` over `Routes` (`/` and `/slow`), described by `AsyncServer.Behaviour` and `AsyncServer.ContentLengthReadsBack` |
| `AsyncServer.Behaviour` | async-server/src/main.rs:113-171 | the complete table: no line gives no reply, fewer than three tokens panic, a non-GET method gets the 405 line, `/` gets the status JSON, `/slow` gets an empty 200, and any other path an empty 404 |
| `AsyncServer.ContentLengthReadsBack` | async-server/src/main.rs:160-161 | every reply parses back, and its Content-Length, when present, equals the byte length of the body |
| `AsyncServer.LowerCaseGet` | async-server/src/main.rs:142-149 | `get / x` is served like `GET / HTTP/1.1`: the method is case-insensitive and the protocol token is not checked |
| `AsyncServer.PostRefused` | async-server/src/main.rs:142-145 | `POST / HTTP/1.1` gets exactly the 405 line |
| `AsyncServer.PathsCaseSensitive` | async-server/src/main.rs:147-158 | `/Slow` does not match `/slow` and gets the empty 404 |
| `AsyncServer.TwoTokensPanic` | async-server/src/main.rs:135-138 | `GET /` panics at the missing protocol token |
| `AsyncServer.Joinable` | async-server/src/main.rs:70-76 | definition of the join order: the ids of the workers that still hold a thread, in list order; described by `JoinableOfFresh` and `ThreadPool.Drop` |
| `AsyncServer.JoinableOfFresh` | async-server/src/main.rs:46-48 | the workers built by `new` each hold a thread, so dropping joins ids `0..n-1` in order |
| `AsyncServer.ThreadPool.constructor` | async-server/src/main.rs:41-53 | `new(n)` holds the sender and `n` workers whose ids are `0..n-1` in order, each with its thread |
| `AsyncServer.ThreadPool.Execute` | async-server/src/main.rs:56-62 | needs the sender (the `unwrap`); the send succeeds exactly when a receiver is left, and otherwise hands the job back |
| `AsyncServer.ThreadPool.Drop` | async-server/src/main.rs:65-77 | the sender becomes `None`; every worker keeps its id and loses its thread; the threads joined are those of the old workers that held one, in order |
| `AsyncServer.NewThenDrop` | async-server/src/main.rs:41-77 | building a pool with `new(n)` and then dropping it joins exactly `0..n-1` in order, releases the sender, and leaves every worker with id `i` and no thread |
| `MtServer.HandleConnection` | mt-server/src/main.rs:73-132 | definition of mt-server's `handle_connection`: `Handle` over `Routes` (`/` and `/slow`), described by `MtServer.Behaviour` and `MtServer.ContentLengthReadsBack` |
| `MtServer.Behaviour` | mt-server/src/main.rs:73-132 | the same complete table as async-server: no reply, panic, 405, the status JSON for `/`, an empty 200 for `/slow`, and an empty 404 otherwise |
| `MtServer.ContentLengthReadsBack` | mt-server/src/main.rs:120-121 | every reply parses back, and its Content-Length, when present, equals the byte length of the body |
| `MtServer.ThreadPool.constructor` | mt-server/src/main.rs:24-34 | `new(n)` holds `n` workers whose ids are `0..n-1` in order |
| `MtServer.ThreadPool.Execute` | mt-server/src/main.rs:36-40 | the pool is left unchanged and the job is never run |
| `StServer.HandleConnection` | st-server/src/main.rs:29-86 | definition of st-server's `handle_connection`: `Handle` over `Routes` (`/` and `/index.html`), described by `StServer.Behaviour` and `StServer.ContentLengthReadsBack` |
| `StServer.Behaviour` | st-server/src/main.rs:29-86 | the complete table: no reply, panic, 405, the status JSON for `/`, the HTML snippet for `/index.html`, and an empty 404 otherwise |
| `StServer.ContentLengthReadsBack` | st-server/src/main.rs:75-76 | every reply parses back, and its Content-Length, when present, equals the byte length of the body |
| `StServer.SlowNotRouted` | st-server/src/main.rs:63-73 | `GET /slow HTTP/1.1` gets the empty 404, because this server has no `/slow` arm |

## Left out

- The `main` functions: binding the listener, the `incoming()` accept loop, the error printing and the
  `PORT`/`LOCALHOST` constants. These are socket I/O.
- `stream.peer_addr().unwrap()` at the top of each handler is a foreign call, and its possible panic
  is not modelled.
- Reading the line: `BufReader::lines()` is reduced to its result. `Line` carries the text with the
  terminator already removed. A line that is not valid UTF-8 counts as `ReadError`.
- Writing: `write_all` is reduced to one success flag. Partial writes and the exact error are not
  modelled.
- Thread spawning, the `mpsc` channel, `Arc<Mutex<Receiver>>`, the worker receive loop and the blocking
  in `thread.join()`. Their purpose is concurrency. There are no channel queues, no delivery order and no
  exactly-once delivery. A job is a token.
- `AsyncServer.ThreadPool.Execute`: whether a receiver is still alive is a parameter. With a pool of size 0,
  or after every worker thread has panicked in a job, the channel has no receiver. The model does not track
  when that happens.
- `AsyncServer.ThreadPool.Drop`: every `thread.join().unwrap()` is taken to succeed. In the code, a worker
  whose thread panicked in a job makes that `unwrap` panic, so the loop stops there and the later workers
  keep their handles. A job panics on a request line with fewer than three tokens. In `main`, though,
  `incoming()` never ends, so the pool is dropped only when `bind` fails, before any job has run
  (async-server/src/main.rs:84-110).
- `thread::sleep(Duration::from_secs(10))` on `/slow` is timing. Only the reply is modelled.
- Logging through `println!`, and the unused constant `OK` at mt-server/src/main.rs:71.
- `eq_ignore_ascii_case` compares bytes and the model compares characters. A non-ASCII character is
  never equal to an ASCII letter in either form, so the verdict for `GET` is the same.
- The Content-Length is an unbounded number, not a `usize`. The bodies are at most 22 bytes, so no
  overflow is possible.
- `MtServer.ThreadPool.Execute`: says only that the pool is unchanged. The closure is then dropped
  without running, and nothing in the model could state that more strongly.
