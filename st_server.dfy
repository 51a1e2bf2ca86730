/** st-server: the connection handler with the `/` and `/index.html` routes,
    called directly from the accept loop with no pool. */
module StServer {
  import opened Tokenizer
  import opened RequestLines
  import opened Wire
  import opened Replies
  import opened Handler

  /** The `match path` arms. */
  const Routes: RouteTable := map["/" := Route(StatusBody, Ok), "/index.html" := Route(IndexBody, Ok)]

  function HandleConnection(input: ReadResult, writeOk: bool): Outcome {
    Handle(Routes, input, writeOk)
  }

  /** Every request the handler can receive, and what it does with it. */
  lemma Behaviour(input: ReadResult, writeOk: bool)
    ensures HandleConnection(input, writeOk) ==
      if !input.Line? then NoResponse
      else if |Tokens(input.text)| < 3 then Panic(MissingToken)
      else if Tokens(input.text)[0] !in GetSpellings then
        if writeOk then Write(MethodNotAllowed, true) else Panic(WriteUnwrap)
      else if Tokens(input.text)[1] == "/" then Write(FormatResponse(Ok, StatusBody), writeOk)
      else if Tokens(input.text)[1] == "/index.html" then Write(FormatResponse(Ok, IndexBody), writeOk)
      else Write(FormatResponse(NotFoundStatus, ""), writeOk)
  {
    HandleByTokens(Routes, input, writeOk);
    if input.Line? && |Tokens(input.text)| >= 3 {
      ReplyBySpelling(Routes, Tokens(input.text)[0], Tokens(input.text)[1], writeOk);
    }
  }

  /** Every reply reads back; where it carries a Content-Length, that is the
      length of the body after the blank line. */
  lemma ContentLengthReadsBack(input: ReadResult, writeOk: bool)
    ensures var o := HandleConnection(input, writeOk);
      o.Write? ==>
        IsAscii(o.response) &&
        var p := ParseResponse(o.response);
        p.Some? &&
        (p.value.contentLength.None? <==> o.response == MethodNotAllowed) &&
        (p.value.contentLength.Some? ==> p.value.contentLength.value == |p.value.body|)
  {
    RouteTextsSafe();
    assert WellFormed(Routes);
    ResponseReadsBack(Routes, input, writeOk);
  }

  /** `/slow` has no arm here: it is answered 404 like any other path. */
  lemma SlowNotRouted(writeOk: bool)
    ensures HandleConnection(Line("GET" + " " + "/slow" + " " + "HTTP/1.1"), writeOk) ==
      Write(FormatResponse(NotFoundStatus, ""), writeOk)
  {
    RequestLineTokens("GET", "/slow", "HTTP/1.1");
    Behaviour(Line("GET" + " " + "/slow" + " " + "HTTP/1.1"), writeOk);
  }
}
