/** The bytes a handler writes back: the status line, an optional
    Content-Length header, a blank line and the body, together with the parser a
    client would use to read them. */
module Wire {
  import opened Wrappers
  import opened Decimal

  const StatusPrefix := "HTTP/1.1 "
  const LengthHeader := "Content-Length: "
  const Crlf := "\r\n"

  const NotAllowedStatus := "405 Method Not Allowed"

  /** The fixed reply to a method other than GET: no header and no body. */
  const MethodNotAllowed := StatusPrefix + NotAllowedStatus + Crlf + Crlf

  /** The 405 reply, byte for byte. */
  lemma MethodNotAllowedText()
    ensures MethodNotAllowed == "HTTP/1.1 405 Method Not Allowed\r\n\r\n"
  {
  }

  /** Every character fits in one byte, so `as_bytes` has one byte per character
      and lengths in characters are lengths in bytes. */
  predicate IsAscii(s: string) {
    forall i :: 0 <= i < |s| ==> (s[i] as int) < 128
  }

  /** Text that can sit inside a header line without ending it. */
  predicate LineSafe(s: string) {
    IsAscii(s) && forall i :: 0 <= i < |s| ==> s[i] != '\r'
  }

  /** `format!("HTTP/1.1 {code}\r\nContent-Length: {content_length}\r\n\r\n{response}")`
      with the length taken from the body. */
  function FormatResponse(code: string, body: string): string {
    StatusPrefix + code + Crlf + LengthHeader + ToDecimal(|body|) + Crlf + Crlf + body
  }

  /** A response as a client reads it. */
  datatype Parsed = Parsed(status: string, contentLength: Option<nat>, body: string)

  /** Cuts `s` at its first CRLF. */
  function SplitLine(s: string): (r: Option<(string, string)>)
    ensures r.Some? ==> |r.value.1| < |s|
  {
    if |s| < 2 then None
    else if s[0] == '\r' && s[1] == '\n' then Some(([], s[2..]))
    else
      match SplitLine(s[1..])
      case None => None
      case Some((line, rest)) => Some(([s[0]] + line, rest))
  }

  /** The status line, then either the blank line or one Content-Length header
      and the blank line, then the body. */
  function ParseResponse(s: string): Option<Parsed> {
    if !(StatusPrefix <= s) then None
    else
      match SplitLine(s[|StatusPrefix|..])
      case None => None
      case Some((status, afterStatus)) => ParseHead(status, afterStatus)
  }

  /** What follows the status line. */
  function ParseHead(status: string, s: string): Option<Parsed> {
    match SplitLine(s)
    case None => None
    case Some((header, afterHeader)) =>
      if header == [] then Some(Parsed(status, None, afterHeader))
      else if !(LengthHeader <= header) then None
      else
        match ParseDecimal(header[|LengthHeader|..])
        case None => None
        case Some(n) =>
          if Crlf <= afterHeader then Some(Parsed(status, Some(n), afterHeader[2..]))
          else None
  }

  /** A line without CR is cut exactly at the CRLF that ends it. */
  lemma {:induction false} SplitLineOf(line: string, rest: string)
    requires forall i :: 0 <= i < |line| ==> line[i] != '\r'
    ensures SplitLine(line + Crlf + rest) == Some((line, rest))
    decreases |line|
  {
    var s := line + Crlf + rest;
    if line == [] {
      assert s == Crlf + rest;
      assert s[2..] == rest;
    } else {
      assert s[0] == line[0];
      assert s[1..] == line[1..] + Crlf + rest;
      SplitLineOf(line[1..], rest);
      assert [line[0]] + line[1..] == line;
    }
  }

  /** The status line is read up to its CRLF. */
  lemma StatusLineParses(code: string, rest: string)
    requires LineSafe(code)
    ensures ParseResponse(StatusPrefix + code + Crlf + rest) == ParseHead(code, rest)
  {
    var s := StatusPrefix + code + Crlf + rest;
    assert s == StatusPrefix + (code + Crlf + rest);
    assert StatusPrefix <= s;
    assert s[|StatusPrefix|..] == code + Crlf + rest;
    SplitLineOf(code, rest);
  }

  /** The Content-Length line reads back as the number written. */
  lemma LengthLineParses(status: string, n: nat, body: string)
    ensures ParseHead(status, LengthHeader + ToDecimal(n) + Crlf + Crlf + body) == Some(Parsed(status, Some(n), body))
  {
    var digits := ToDecimal(n);
    var header := LengthHeader + digits;
    assert LengthHeader + digits + Crlf + Crlf + body == header + Crlf + (Crlf + body);
    assert forall i :: 0 <= i < |header| ==> header[i] != '\r' by {
      assert forall i :: 0 <= i < |digits| ==> IsDigit(digits[i]);
      assert forall i :: |LengthHeader| <= i < |header| ==> header[i] == digits[i - |LengthHeader|];
    }
    SplitLineOf(header, Crlf + body);
    assert header != [];
    assert LengthHeader <= header;
    assert header[|LengthHeader|..] == digits;
    ParseToDecimal(n);
    assert Crlf <= Crlf + body && (Crlf + body)[2..] == body;
  }

  /** Round trip: a client reading a formatted response gets back the status, a
      Content-Length equal to the body's length, and the body. */
  lemma FormatResponseParses(code: string, body: string)
    requires LineSafe(code)
    ensures ParseResponse(FormatResponse(code, body)) == Some(Parsed(code, Some(|body|), body))
  {
    var rest := LengthHeader + ToDecimal(|body|) + Crlf + Crlf + body;
    assert FormatResponse(code, body) == StatusPrefix + code + Crlf + rest;
    StatusLineParses(code, rest);
    LengthLineParses(code, |body|, body);
  }

  /** The 405 reply reads back as that status with no Content-Length and no body. */
  lemma MethodNotAllowedParses()
    ensures ParseResponse(MethodNotAllowed) == Some(Parsed(NotAllowedStatus, None, ""))
  {
    assert MethodNotAllowed == StatusPrefix + (NotAllowedStatus + Crlf + Crlf);
    assert MethodNotAllowed[|StatusPrefix|..] == NotAllowedStatus + Crlf + Crlf;
    SplitLineOf(NotAllowedStatus, Crlf);
    assert SplitLine(Crlf) == Some(([], []));
  }

  /** Formatted responses are ASCII whenever the code and the body are. */
  lemma {:induction false} FormatResponseAscii(code: string, body: string)
    requires IsAscii(code) && IsAscii(body)
    ensures IsAscii(FormatResponse(code, body))
  {
    var digits := ToDecimal(|body|);
    assert forall i :: 0 <= i < |digits| ==> IsDigit(digits[i]);
    assert IsAscii(digits);
    AsciiConcat(StatusPrefix, code);
    AsciiConcat(StatusPrefix + code, Crlf);
    AsciiConcat(StatusPrefix + code + Crlf, LengthHeader);
    AsciiConcat(StatusPrefix + code + Crlf + LengthHeader, digits);
    AsciiConcat(StatusPrefix + code + Crlf + LengthHeader + digits, Crlf);
    AsciiConcat(StatusPrefix + code + Crlf + LengthHeader + digits + Crlf, Crlf);
    AsciiConcat(StatusPrefix + code + Crlf + LengthHeader + digits + Crlf + Crlf, body);
  }

  lemma MethodNotAllowedAscii()
    ensures IsAscii(MethodNotAllowed)
  {
    AsciiConcat(StatusPrefix, NotAllowedStatus);
    AsciiConcat(StatusPrefix + NotAllowedStatus, Crlf);
    AsciiConcat(StatusPrefix + NotAllowedStatus + Crlf, Crlf);
  }

  lemma AsciiConcat(a: string, b: string)
    requires IsAscii(a) && IsAscii(b)
    ensures IsAscii(a + b)
  {
    assert forall i :: |a| <= i < |a + b| ==> (a + b)[i] == b[i - |a|];
  }
}
