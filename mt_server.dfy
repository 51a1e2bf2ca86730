/** mt-server: the same connection handler and routes as async-server, and a
    pool whose `execute` does nothing. */
module MtServer {
  import opened Tokenizer
  import opened Wire
  import opened Replies
  import opened Handler
  import opened Threads

  /** The `match path` arms; `/slow` sleeps ten seconds before answering, which
      is timing and not part of the reply. */
  const Routes: RouteTable := map["/" := Route(StatusBody, Ok), "/slow" := Route("", Ok)]

  function HandleConnection(input: ReadResult, writeOk: bool): Outcome {
    Handle(Routes, input, writeOk)
  }

  /** Every request the handler can receive, and what it does with it. */
  lemma Behaviour(input: ReadResult, writeOk: bool)
    ensures HandleConnection(input, writeOk) ==
      if !input.Line? then NoResponse
      else if |Tokens(input.text)| < 3 then Panic(MissingToken)
      else if Tokens(input.text)[0] !in GetSpellings then
        if writeOk then Write(MethodNotAllowed, true) else Panic(WriteUnwrap)
      else if Tokens(input.text)[1] == "/" then Write(FormatResponse(Ok, StatusBody), writeOk)
      else if Tokens(input.text)[1] == "/slow" then Write(FormatResponse(Ok, ""), writeOk)
      else Write(FormatResponse(NotFoundStatus, ""), writeOk)
  {
    HandleByTokens(Routes, input, writeOk);
    if input.Line? && |Tokens(input.text)| >= 3 {
      ReplyBySpelling(Routes, Tokens(input.text)[0], Tokens(input.text)[1], writeOk);
    }
  }

  /** Every reply reads back; where it carries a Content-Length, that is the
      length of the body after the blank line. */
  lemma ContentLengthReadsBack(input: ReadResult, writeOk: bool)
    ensures var o := HandleConnection(input, writeOk);
      o.Write? ==>
        IsAscii(o.response) &&
        var p := ParseResponse(o.response);
        p.Some? &&
        (p.value.contentLength.None? <==> o.response == MethodNotAllowed) &&
        (p.value.contentLength.Some? ==> p.value.contentLength.value == |p.value.body|)
  {
    RouteTextsSafe();
    assert WellFormed(Routes);
    ResponseReadsBack(Routes, input, writeOk);
  }

  /** A worker: its id and the handle of a thread spawned with an empty closure. */
  datatype Worker = Worker(id: nat, thread: JoinHandle)

  class ThreadPool {
    var workers: seq<Worker>

    /** `ThreadPool::new`: one worker per id `0..workerCount`, in order. */
    constructor (workerCount: nat)
      ensures |workers| == workerCount
      ensures forall i :: 0 <= i < workerCount ==> workers[i] == Worker(i, JoinHandle(i))
    {
      var ws: seq<Worker> := [];
      for i := 0 to workerCount
        invariant |ws| == i
        invariant forall k :: 0 <= k < i ==> ws[k] == Worker(k, JoinHandle(k))
      {
        ws := ws + [Worker(i, JoinHandle(i))];
      }
      workers := ws;
    }

    /** `execute` has an empty body: the job is dropped unrun and the pool is
        left as it was. */
    method Execute(job: Job)
      ensures workers == old(workers)
    {
    }
  }
}
