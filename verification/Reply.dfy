/** Replies and their framing on the wire (include/reply.hpp, src/reply.cpp and the reply part
    of `handle_request` in src/request_handler.cpp). */
module Reply {
  import opened Text
  import opened Http
  import Uri

  /** The two statuses that the server sends. */
  datatype Status = Ok | BadRequest

  datatype ReplyValue = ReplyValue(status: Status, headers: seq<Header>, content: string)

  const BLANK_LINE := "\r\n\r\n"

  function StatusText(s: Status): string {
    match s
    case Ok => "HTTP/1.1 200 OK"
    case BadRequest => "HTTP/1.1 400 Bad Request"
  }

  function StatusLine(s: Status): string {
    StatusText(s) + "\r\n"
  }

  function HeaderLine(h: Header): string {
    h.name + ": " + h.value + "\r\n"
  }

  function HeaderLines(hs: seq<Header>): string {
    if hs == [] then "" else HeaderLines(hs[..|hs| - 1]) + HeaderLine(hs[|hs| - 1])
  }

  /** The status line, the header lines and the blank line. */
  function Head(r: ReplyValue): string {
    StatusLine(r.status) + HeaderLines(r.headers) + "\r\n"
  }

  /** The bytes of a reply on the connection. */
  function Wire(r: ReplyValue): string {
    Head(r) + r.content
  }

  const CONTENT_LENGTH := "Content-Length"

  function ReplyHeaders(length: nat, keepalive: bool): seq<Header> {
    [ Header(CONTENT_LENGTH, Decimal(length)),
      Header("Content-Type", "application/json; charset=UTF-8"),
      Header("Connection", if keepalive then "Keep-Alive" else "close") ]
  }

  /** The reply of the handler: `content` is all that the reply holds at the end. */
  function Served(content: string, keepalive: bool): ReplyValue {
    ReplyValue(Ok, ReplyHeaders(|content|, keepalive), content)
  }

  const STOCK_BAD_REQUEST := ReplyValue(BadRequest, [], "")

  lemma Single(s: string)
    ensures Flat([s]) == s + HeaderLines([])
  {
    assert s + "" == s;
  }

  lemma PushOne(bs: seq<string>, s: string)
    ensures Flat(bs + [s]) == Flat(bs) + s
  {
    FlatConcat(bs, [s]);
    assert s + "" == s;
  }

  lemma PushHeader(bs: seq<string>, hs: seq<Header>, h: Header, line: string)
    requires Flat(bs) == line + HeaderLines(hs)
    ensures Flat(bs + [h.name] + [": "] + [h.value] + ["\r\n"]) == line + HeaderLines(hs + [h])
  {
    assert (hs + [h])[..|hs|] == hs;
    hide Flat;
    PushOne(bs, h.name);
    PushOne(bs + [h.name], ": ");
    PushOne(bs + [h.name] + [": "], h.value);
    PushOne(bs + [h.name] + [": "] + [h.value], "\r\n");
  }

  lemma PushEnd(bs: seq<string>, content: string)
    ensures Flat(bs + ["\r\n"] + [content]) == Flat(bs) + "\r\n" + content
  {
    hide Flat;
    PushOne(bs, "\r\n");
    PushOne(bs + ["\r\n"], content);
  }

  class Reply {
    var status: Status
    var headers: seq<Header>
    var content: string

    function View(): ReplyValue
      reads this
    {
      ReplyValue(status, headers, content)
    }

    /** The status of a new reply is indeterminate. */
    constructor ()
      ensures headers == [] && content == ""
    {
      headers, content := [], "";
    }

    method Clear()
      modifies this
      ensures headers == [] && content == "" && status == old(status)
    {
      headers := [];
      content := "";
    }

    /** Assignment from a stock reply, which carries neither headers nor content. */
    method AssignStock(s: Status)
      modifies this
      ensures View() == ReplyValue(s, [], "")
    {
      status, headers, content := s, [], "";
    }

    method ToBuffers() returns (buffers: seq<string>)
      ensures Flat(buffers) == Wire(View())
    {
      buffers := [StatusLine(status)];
      ghost var line := StatusLine(status);
      Single(line);
      for i := 0 to |headers|
        invariant Flat(buffers) == line + HeaderLines(headers[..i])
      {
        var h := headers[i];
        PushHeader(buffers, headers[..i], h, line);
        assert headers[..i + 1] == headers[..i] + [h];
        buffers := buffers + [h.name];
        buffers := buffers + [": "];
        buffers := buffers + [h.value];
        buffers := buffers + ["\r\n"];
      }
      assert headers[..|headers|] == headers;
      PushEnd(buffers, content);
      buffers := buffers + ["\r\n"];
      buffers := buffers + [content];
    }
  }

  /** The handler on a request with the given uri. The document `json` is what the database
      client and the JSON library produce for the target. */
  method HandleRequest(uri: string, rep: Reply, keepalive: bool, json: string) returns (target: Uri.Target)
    modifies rep
    ensures target == Uri.Route(uri)
    ensures rep.View() == Served(old(rep.content) + json, keepalive)
  {
    target := Uri.RouteRequest(uri);
    rep.headers := [];
    rep.status := Ok;
    rep.content := rep.content + json;
    rep.headers := rep.headers + [Header("Content-Length", Decimal(|rep.content|))];
    rep.headers := rep.headers + [Header("Content-Type", "application/json; charset=UTF-8")];
    if keepalive {
      rep.headers := rep.headers + [Header("Connection", "Keep-Alive")];
    } else {
      rep.headers := rep.headers + [Header("Connection", "close")];
    }
  }
}
