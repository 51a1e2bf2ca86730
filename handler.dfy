/** `handle_connection`, shared by the three servers: they differ only in the
    route table passed in. */
module Handler {
  import opened Wrappers
  import opened Tokenizer
  import opened Wire
  import opened Replies

  /** What `lines_itr.next()` gave: nothing, an error, or the first line with its
      line terminator removed. */
  datatype ReadResult = Eof | ReadError | Line(text: string)

  /** Why the handler panicked: an `unwrap` on a missing token, or on the failed
      write of the 405 reply. */
  datatype Fault = MissingToken | WriteUnwrap

  /** How one call ends. `Write` carries the text handed to `write_all` and
      whether the write succeeded (a failure there is only logged). */
  datatype Outcome = NoResponse | Panic(fault: Fault) | Write(response: string, delivered: bool)

  /** One arm of the `match path`: the body and the status it answers with. */
  datatype Route = Route(body: string, status: string)

  /** The exact-match arms of the `match path`; anything else is `NotFound`. */
  type RouteTable = map<string, Route>

  const NotFound := Route("", NotFoundStatus)

  function Lookup(table: RouteTable, path: string): Route {
    if path in table then table[path] else NotFound
  }

  /** Route tables whose statuses fit in a status line and whose text is ASCII. */
  ghost predicate WellFormed(table: RouteTable) {
    forall p :: p in table ==> LineSafe(table[p].status) && IsAscii(table[p].body)
  }

  /** `u8::to_ascii_lowercase`, applied to a character. */
  function AsciiLower(c: char): char {
    if 'A' <= c <= 'Z' then ((c as int) + 32) as char else c
  }

  /** `str::eq_ignore_ascii_case`. */
  predicate EqIgnoreAsciiCase(a: string, b: string) {
    |a| == |b| && forall i :: 0 <= i < |a| ==> AsciiLower(a[i]) == AsciiLower(b[i])
  }

  predicate IsGet(verb: string) {
    EqIgnoreAsciiCase(verb, "GET")
  }

  /** The eight spellings of GET that the method gate lets through. */
  const GetSpellings: set<string> :=
    {"GET", "GEt", "GeT", "Get", "gET", "gEt", "geT", "get"}

  /** The three `info_parts.next().unwrap()` calls: the method, path and
      protocol tokens, or `None` when the iterator runs out first. */
  function RequestParts(line: string): Option<(string, string, string)> {
    match NextToken(line)
    case None => None
    case Some((verb, afterVerb)) =>
      match NextToken(afterVerb)
      case None => None
      case Some((path, afterPath)) =>
        match NextToken(afterPath)
        case None => None
        case Some((proto, _)) => Some((verb, path, proto))
  }

  function Handle(table: RouteTable, input: ReadResult, writeOk: bool): Outcome {
    match input
    case Eof => NoResponse
    case ReadError => NoResponse
    case Line(line) =>
      match RequestParts(line)
      case None => Panic(MissingToken)
      case Some((verb, path, _)) => Reply(table, verb, path, writeOk) // the protocol token is only logged
  }

  /** The method gate, then the route dispatch and the write. */
  function Reply(table: RouteTable, verb: string, path: string, writeOk: bool): Outcome {
    if !IsGet(verb) then
      if writeOk then Write(MethodNotAllowed, true) else Panic(WriteUnwrap)
    else
      var route := Lookup(table, path);
      Write(FormatResponse(route.status, route.body), writeOk)
  }

  /** The method gate accepts exactly the eight case variants of GET. */
  lemma IsGetSpelling(verb: string)
    ensures IsGet(verb) <==> verb in GetSpellings
  {
    if IsGet(verb) {
      var a, b, c := verb[0], verb[1], verb[2];
      assert AsciiLower(a) == 'g' && AsciiLower(b) == 'e' && AsciiLower(c) == 't';
      assert a == 'g' || a == 'G';
      assert b == 'e' || b == 'E';
      assert c == 't' || c == 'T';
      assert verb == [a, b, c];
    }
  }

  /** One iterator step yields the first token and leaves the rest of the list. */
  lemma {:induction false} FirstTokens(line: string)
    ensures NextToken(line).None? <==> |Tokens(line)| == 0
    ensures NextToken(line).Some? ==>
      var (w1, r1) := NextToken(line).value;
      Tokens(line)[0] == w1 && Tokens(line)[1..] == Tokens(r1)
  {
  }

  /** The three parts are the first three tokens; later tokens are never looked at. */
  lemma {:induction false} RequestPartsAreTokens(line: string)
    ensures RequestParts(line) ==
      var ts := Tokens(line);
      if |ts| < 3 then None else Some((ts[0], ts[1], ts[2]))
  {
    FirstTokens(line);
    if NextToken(line).Some? {
      var (m, r1) := NextToken(line).value;
      FirstTokens(r1);
      if NextToken(r1).Some? {
        var (p, r2) := NextToken(r1).value;
        FirstTokens(r2);
      }
    }
  }

  /** What the handler does, stated with the token list: no line means no reply,
      fewer than three tokens a panic, otherwise the reply to the first two. */
  lemma HandleByTokens(table: RouteTable, input: ReadResult, writeOk: bool)
    ensures Handle(table, input, writeOk) ==
      if !input.Line? then NoResponse
      else if |Tokens(input.text)| < 3 then Panic(MissingToken)
      else Reply(table, Tokens(input.text)[0], Tokens(input.text)[1], writeOk)
  {
    if input.Line? {
      RequestPartsAreTokens(input.text);
    }
  }

  /** The reply, stated with the spellings of GET: the fixed 405 line for any
      other method, otherwise the route's status and body. */
  lemma ReplyBySpelling(table: RouteTable, verb: string, path: string, writeOk: bool)
    ensures Reply(table, verb, path, writeOk) ==
      if verb !in GetSpellings then
        if writeOk then Write(MethodNotAllowed, true) else Panic(WriteUnwrap)
      else
        Write(FormatResponse(Lookup(table, path).status, Lookup(table, path).body), writeOk)
  {
    IsGetSpelling(verb);
  }

  /** Only the method and the path matter: the protocol token and anything after
      it are ignored. */
  lemma LaterTokensIgnored(table: RouteTable, line1: string, line2: string, writeOk: bool)
    requires |Tokens(line1)| >= 3 && |Tokens(line2)| >= 3
    requires Tokens(line1)[..2] == Tokens(line2)[..2]
    ensures Handle(table, Line(line1), writeOk) == Handle(table, Line(line2), writeOk)
  {
    HandleByTokens(table, Line(line1), writeOk);
    HandleByTokens(table, Line(line2), writeOk);
    assert Tokens(line1)[0] == Tokens(line1)[..2][0];
    assert Tokens(line1)[1] == Tokens(line1)[..2][1];
  }

  /** Whatever the method gate and the route table write is ASCII and reads back:
      the 405 reply without a Content-Length, every other reply with a
      Content-Length equal to the length of the body that follows, and that body
      is the route's. */
  lemma ReplyReadsBack(table: RouteTable, verb: string, path: string, writeOk: bool)
    requires WellFormed(table)
    ensures var o := Reply(table, verb, path, writeOk);
      o.Write? ==>
        IsAscii(o.response) &&
        var p := ParseResponse(o.response);
        p.Some? &&
        (p.value.contentLength.None? <==> o.response == MethodNotAllowed) &&
        (p.value.contentLength.Some? ==>
           p.value.contentLength.value == |p.value.body| &&
           p.value.body == Lookup(table, path).body)
  {
    if IsGet(verb) {
      var route := Lookup(table, path);
      RouteTextsSafe();
      assert LineSafe(route.status) && IsAscii(route.body);
      FormattedIsNot405(route.status, route.body);
      FormatResponseParses(route.status, route.body);
      FormatResponseAscii(route.status, route.body);
    } else {
      MethodNotAllowedParses();
      MethodNotAllowedAscii();
    }
  }

  /** A formatted reply carries a Content-Length, so it is never the 405 line. */
  lemma FormattedIsNot405(code: string, body: string)
    requires LineSafe(code)
    ensures FormatResponse(code, body) != MethodNotAllowed
  {
    FormatResponseParses(code, body);
    MethodNotAllowedParses();
  }

  /** The same for the handler as a whole. */
  lemma ResponseReadsBack(table: RouteTable, input: ReadResult, writeOk: bool)
    requires WellFormed(table)
    ensures var o := Handle(table, input, writeOk);
      o.Write? ==>
        input.Line? && |Tokens(input.text)| >= 3 &&
        IsAscii(o.response) &&
        var p := ParseResponse(o.response);
        p.Some? &&
        (p.value.contentLength.None? <==> o.response == MethodNotAllowed) &&
        (p.value.contentLength.Some? ==>
           p.value.contentLength.value == |p.value.body| &&
           p.value.body == Lookup(table, Tokens(input.text)[1]).body)
  {
    HandleByTokens(table, input, writeOk);
    if input.Line? && |Tokens(input.text)| >= 3 {
      ReplyReadsBack(table, Tokens(input.text)[0], Tokens(input.text)[1], writeOk);
    }
  }
}
