/** async-server: the connection handler with the `/` and `/slow` routes, run by
    a pool of workers fed through a channel. */
module AsyncServer {
  import opened Wrappers
  import opened Tokenizer
  import opened Wire
  import opened Replies
  import opened Handler
  import opened Threads
  import opened RequestLines

  /** The `match path` arms; `/slow` sleeps ten seconds before answering, which
      is timing and not part of the reply. */
  const Routes: RouteTable := map["/" := Route(StatusBody, Ok), "/slow" := Route("", Ok)]

  function HandleConnection(input: ReadResult, writeOk: bool): Outcome {
    Handle(Routes, input, writeOk)
  }

  /** Every request the handler can receive, and what it does with it. */
  lemma Behaviour(input: ReadResult, writeOk: bool)
    ensures HandleConnection(input, writeOk) ==
      if !input.Line? then NoResponse
      else if |Tokens(input.text)| < 3 then Panic(MissingToken)
      else if Tokens(input.text)[0] !in GetSpellings then
        if writeOk then Write(MethodNotAllowed, true) else Panic(WriteUnwrap)
      else if Tokens(input.text)[1] == "/" then Write(FormatResponse(Ok, StatusBody), writeOk)
      else if Tokens(input.text)[1] == "/slow" then Write(FormatResponse(Ok, ""), writeOk)
      else Write(FormatResponse(NotFoundStatus, ""), writeOk)
  {
    HandleByTokens(Routes, input, writeOk);
    if input.Line? && |Tokens(input.text)| >= 3 {
      ReplyBySpelling(Routes, Tokens(input.text)[0], Tokens(input.text)[1], writeOk);
    }
  }

  /** Every reply reads back; where it carries a Content-Length, that is the
      length of the body after the blank line. */
  lemma ContentLengthReadsBack(input: ReadResult, writeOk: bool)
    ensures var o := HandleConnection(input, writeOk);
      o.Write? ==>
        IsAscii(o.response) &&
        var p := ParseResponse(o.response);
        p.Some? &&
        (p.value.contentLength.None? <==> o.response == MethodNotAllowed) &&
        (p.value.contentLength.Some? ==> p.value.contentLength.value == |p.value.body|)
  {
    RouteTextsSafe();
    assert WellFormed(Routes);
    ResponseReadsBack(Routes, input, writeOk);
  }

  /** A lower-case method is accepted and the protocol token is not checked. */
  lemma LowerCaseGet(writeOk: bool)
    ensures HandleConnection(Line("get" + " " + "/" + " " + "x"), writeOk) ==
      Write(FormatResponse(Ok, StatusBody), writeOk)
  {
    RequestLineTokens("get", "/", "x");
    Behaviour(Line("get" + " " + "/" + " " + "x"), writeOk);
  }

  /** POST is refused with the bare 405 line. */
  lemma PostRefused()
    ensures HandleConnection(Line("POST" + " " + "/" + " " + "HTTP/1.1"), true) == Write(MethodNotAllowed, true)
  {
    RequestLineTokens("POST", "/", "HTTP/1.1");
    Behaviour(Line("POST" + " " + "/" + " " + "HTTP/1.1"), true);
  }

  /** Paths match exactly and case-sensitively: `/Slow` is not `/slow`. */
  lemma PathsCaseSensitive(writeOk: bool)
    ensures HandleConnection(Line("GET" + " " + "/Slow" + " " + "HTTP/1.1"), writeOk) ==
      Write(FormatResponse(NotFoundStatus, ""), writeOk)
  {
    RequestLineTokens("GET", "/Slow", "HTTP/1.1");
    Behaviour(Line("GET" + " " + "/Slow" + " " + "HTTP/1.1"), writeOk);
  }

  /** A request line with only two tokens makes the third `unwrap` panic. */
  lemma TwoTokensPanic(writeOk: bool)
    ensures HandleConnection(Line("GET" + " " + "/"), writeOk) == Panic(MissingToken)
  {
    TokensOfPair("GET", "/");
    Behaviour(Line("GET" + " " + "/"), writeOk);
  }

  /** A worker: its id and, until the pool is dropped, its thread. */
  datatype Worker = Worker(id: nat, thread: Option<JoinHandle>)

  /** The producing end of the job channel. */
  datatype Sender = Sender

  /** What `Sender::send` returns: the job comes back when no receiver is left. */
  datatype SendResult = Sent | SendError(job: Job)

  /** The ids of the workers that still hold a thread, in order: the threads a
      drop joins. */
  function Joinable(ws: seq<Worker>): seq<nat> {
    if ws == [] then []
    else
      var last := ws[|ws| - 1];
      Joinable(ws[..|ws| - 1]) + if last.thread.Some? then [last.id] else []
  }

  /** A freshly built pool joins its workers in id order. */
  lemma {:induction false} JoinableOfFresh(ws: seq<Worker>)
    requires forall i :: 0 <= i < |ws| ==> ws[i] == Worker(i, Some(JoinHandle(i)))
    ensures |Joinable(ws)| == |ws|
    ensures forall k :: 0 <= k < |ws| ==> Joinable(ws)[k] == k
  {
    if ws != [] {
      JoinableOfFresh(ws[..|ws| - 1]);
    }
  }

  class ThreadPool {
    var workers: seq<Worker>
    var sender: Option<Sender>

    /** Worker ids are their positions, and while the sender is held every worker
        still owns its thread. */
    ghost predicate Valid()
      reads this
    {
      (forall i :: 0 <= i < |workers| ==> workers[i].id == i) &&
      (sender.Some? ==> forall i :: 0 <= i < |workers| ==> workers[i].thread == Some(JoinHandle(i)))
    }

    /** `ThreadPool::new`: one worker per id `0..workerCount`, in order, and the sender. */
    constructor (workerCount: nat)
      ensures Valid() && sender == Some(Sender)
      ensures |workers| == workerCount
      ensures forall i :: 0 <= i < workerCount ==> workers[i] == Worker(i, Some(JoinHandle(i)))
    {
      var ws: seq<Worker> := [];
      for i := 0 to workerCount
        invariant |ws| == i
        invariant forall k :: 0 <= k < i ==> ws[k] == Worker(k, Some(JoinHandle(k)))
      {
        ws := ws + [Worker(i, Some(JoinHandle(i)))];
      }
      workers := ws;
      sender := Some(Sender);
    }

    /** `execute`: the `unwrap` needs the sender; the send fails, handing the job
        back, exactly when no worker thread holds the receiver any more. */
    method Execute(job: Job, receiverAlive: bool) returns (r: SendResult)
      requires sender.Some?
      ensures r.Sent? <==> receiverAlive
      ensures r.SendError? ==> r.job == job
    {
      if receiverAlive {
        r := Sent;
      } else {
        r := SendError(job);
      }
    }

    /** `Drop`: release the sender, then visit the workers in order, taking and
        joining each thread. Returns the ids joined. */
    method Drop() returns (joined: seq<nat>)
      requires Valid()
      modifies this
      ensures Valid() && sender == None
      ensures |workers| == |old(workers)|
      ensures forall i :: 0 <= i < |workers| ==> workers[i] == old(workers[i]).(thread := None)
      ensures joined == Joinable(old(workers))
    {
      sender := None;
      joined := [];
      var i := 0;
      while i < |workers|
        invariant 0 <= i <= |workers| == |old(workers)| && sender == None
        invariant forall k :: 0 <= k < i ==> workers[k] == old(workers[k]).(thread := None)
        invariant forall k :: i <= k < |workers| ==> workers[k] == old(workers[k])
        invariant joined == Joinable(old(workers)[..i])
      {
        var w := workers[i];
        if w.thread.Some? {
          joined := joined + [w.id];
        }
        workers := workers[i := w.(thread := None)];
        assert old(workers)[..i + 1][..i] == old(workers)[..i];
        i := i + 1;
      }
      assert old(workers)[..i] == old(workers);
    }
  }

  /** A pool built by `new(n)` and then dropped joins the workers `0..n-1` in
      order, and afterwards no worker holds a thread. */
  method NewThenDrop(n: nat) returns (pool: ThreadPool, joined: seq<nat>)
    ensures joined == seq(n, i => i)
    ensures pool.sender == None && |pool.workers| == n
    ensures forall i :: 0 <= i < n ==> pool.workers[i] == Worker(i, None)
  {
    pool := new ThreadPool(n);
    JoinableOfFresh(pool.workers);
    joined := pool.Drop();
  }
}
