/** The fixed bodies of the route tables and the exact replies built from them.
    Each reply is stated as the pieces of the `format!` template with the
    Content-Length digits filled in. */
module Replies {
  import opened Decimal
  import opened Wire

  const Ok := "200 OK"
  const NotFoundStatus := "404 NOT FOUND"
  const StatusBody := "{\"status\": \"ok\"}"
  const IndexBody := "<html><p>hi</p></html>"

  lemma StatusBodyReply()
    ensures |StatusBody| == 16
    ensures FormatResponse(Ok, StatusBody) ==
      "HTTP/1.1 " + "200 OK" + "\r\n" + "Content-Length: " + "16" + "\r\n" + "\r\n" + "{\"status\": \"ok\"}"
  {
    assert ToDecimal(16) == "16";
  }

  lemma IndexBodyReply()
    ensures |IndexBody| == 22
    ensures FormatResponse(Ok, IndexBody) ==
      "HTTP/1.1 " + "200 OK" + "\r\n" + "Content-Length: " + "22" + "\r\n" + "\r\n" + "<html><p>hi</p></html>"
  {
    assert ToDecimal(22) == "22";
  }

  lemma EmptyOkReply()
    ensures FormatResponse(Ok, "") ==
      "HTTP/1.1 " + "200 OK" + "\r\n" + "Content-Length: " + "0" + "\r\n" + "\r\n"
  {
    assert ToDecimal(0) == "0";
  }

  lemma NotFoundReply()
    ensures FormatResponse(NotFoundStatus, "") ==
      "HTTP/1.1 " + "404 NOT FOUND" + "\r\n" + "Content-Length: " + "0" + "\r\n" + "\r\n"
  {
    assert ToDecimal(0) == "0";
  }

  /** The route texts fit on the wire: ASCII, and no CR in a status. */
  lemma RouteTextsSafe()
    ensures LineSafe(Ok) && LineSafe(NotFoundStatus)
    ensures IsAscii(StatusBody) && IsAscii(IndexBody) && IsAscii("")
  {
  }
}
