/** How the replies of a connection are told apart by the client that reads them. */
module Framing {
  import opened Text
  import opened Http
  import opened Split
  import opened Reply

  /** No line break inside. */
  predicate OneLine(s: string) {
    forall i | 0 <= i < |s| :: s[i] != '\r'
  }

  predicate OneLineHeaders(hs: seq<Header>) {
    forall i | 0 <= i < |hs| :: OneLine(hs[i].name) && OneLine(hs[i].value)
  }

  /** Lines, each not empty and each ended by a line break. */
  predicate Lines(t: string) {
    && |t| >= 2 && t[|t| - 2] == '\r' && t[|t| - 1] == '\n'
    && forall i | 0 <= i < |t| :: t[i] == '\r' ==> i + 1 < |t| && (i + 2 < |t| ==> t[i + 2] != '\r')
  }

  lemma AddLine(t: string, s: string)
    requires Lines(t) && OneLine(s) && s != ""
    ensures Lines(t + s + "\r\n")
  {
    var u := t + s + "\r\n";
    forall i | 0 <= i < |u|
      ensures u[i] == '\r' ==> i + 1 < |u| && (i + 2 < |u| ==> u[i + 2] != '\r')
    {
      if i < |t| {
        assert u[i] == t[i];
        assert i + 2 < |t| ==> u[i + 2] == t[i + 2];
        assert i + 2 == |t| ==> u[i + 2] == s[0];
      } else if i < |t| + |s| {
        assert u[i] == s[i - |t|];
      }
    }
  }

  lemma StatusOneLine(s: Status)
    ensures OneLine(StatusText(s)) && StatusText(s) != ""
  {
  }

  lemma StatusIsLine(s: Status)
    ensures Lines(StatusLine(s))
  {
    StatusOneLine(s);
    hide StatusText;
    var t := StatusLine(s);
    assert forall i | 0 <= i < |t| - 2 :: t[i] == StatusText(s)[i];
  }

  lemma HeaderLinesLast(hs: seq<Header>)
    requires hs != []
    ensures HeaderLines(hs) == HeaderLines(hs[..|hs| - 1]) + HeaderLine(hs[|hs| - 1])
  {
  }

  lemma {:induction false} HeadLines(t: string, hs: seq<Header>)
    requires Lines(t) && OneLineHeaders(hs)
    ensures Lines(t + HeaderLines(hs))
    decreases |hs|
  {
    if hs == [] {
      assert t + "" == t;
    } else {
      var n := |hs| - 1;
      HeadLines(t, hs[..n]);
      var line := hs[n].name + ": " + hs[n].value;
      AddLine(t + HeaderLines(hs[..n]), line);
      HeaderLinesLast(hs);
      hide Lines, HeaderLines;
      assert t + HeaderLines(hs) == t + HeaderLines(hs[..n]) + line + "\r\n";
    }
  }

  lemma FirstBlankLine(t: string, more: string)
    requires Lines(t)
    ensures Find(t + "\r\n" + more, BLANK_LINE, 0) == |t| - 2
  {
    var s := t + "\r\n" + more;
    assert s[|t| - 2..|t| + 2] == BLANK_LINE;
    forall i: int | 0 <= i < |t| - 2
      ensures !OccursAt(s, BLANK_LINE, i)
    {
      assert s[i] == t[i] && s[i + 2] == t[i + 2];
      DiffersAt(s, BLANK_LINE, i, if s[i] != '\r' then 0 else 2);
    }
    FindIs(s, BLANK_LINE, 0, |t| - 2);
  }

  /** The first blank line of a reply is the end of its head, whatever the content and whatever
      follows, so everything behind it is the content. */
  lemma HeadEndsAtFirstBlankLine(r: ReplyValue, more: string)
    requires OneLineHeaders(r.headers)
    ensures Find(Wire(r) + more, BLANK_LINE, 0) == |Head(r)| - 4
  {
    hide StatusLine, Lines, HeaderLines;
    StatusIsLine(r.status);
    HeadLines(StatusLine(r.status), r.headers);
    var t := StatusLine(r.status) + HeaderLines(r.headers);
    FirstBlankLine(t, r.content + more);
    assert Wire(r) + more == t + "\r\n" + (r.content + more);
  }

  const LENGTH_FIELD := "\r\nContent-Length: "

  predicate HasLength(head: string) {
    Find(head, LENGTH_FIELD, 0) != NPOS
  }

  /** The number in the `Content-Length` line, 0 without one. */
  function AnnouncedLength(head: string): int {
    var i := Find(head, LENGTH_FIELD, 0);
    if i == NPOS then 0 else DecimalValue(LeadingDigits(head[i + |LENGTH_FIELD|..]))
  }

  /** The head alone tells where the content ends. */
  predicate Framed(r: ReplyValue) {
    HasLength(Head(r)) && AnnouncedLength(Head(r)) == |r.content|
  }

  datatype Delivery = Delivery(head: string, content: string)

  /** A client of section 4.4 of RFC 2616. `heads` has an entry for each reply that the client
      expects, which tells whether it is to answer a HEAD request. The client reads up to the first
      blank line. To a HEAD request that is all; otherwise it takes as many bytes as the
      `Content-Length` line says. Without that line the content is all that follows; a lenient client
      takes it to be empty. */
  function ReadReplies(s: string, heads: seq<bool>, lenient: bool): seq<Delivery>
    decreases |heads|
  {
    var i := Find(s, BLANK_LINE, 0);
    if heads == [] || i == NPOS then []
    else
      var head, more := s[..i + 4], s[i + 4..];
      var n := AnnouncedLength(head);
      if heads[0] then [Delivery(head, "")] + ReadReplies(more, heads[1..], lenient)
      else if !lenient && !HasLength(head) then [Delivery(head, more)]
      else if n < 0 || n > |more| then []
      else [Delivery(head, more[..n])] + ReadReplies(more[n..], heads[1..], lenient)
  }

  function Stream(rs: seq<ReplyValue>): string {
    if rs == [] then "" else Wire(rs[0]) + Stream(rs[1..])
  }

  /** What a client should get of a reply, which is no content if it answers a HEAD request. */
  function Expected(r: ReplyValue, head: bool): Delivery {
    Delivery(Head(r), if head then "" else r.content)
  }

  function Deliveries(rs: seq<ReplyValue>, heads: seq<bool>): (ds: seq<Delivery>)
    requires |heads| == |rs|
    ensures |ds| == |rs|
  {
    seq(|rs|, i requires 0 <= i < |rs| => Expected(rs[i], heads[i]))
  }

  /** The replies that the server produces. */
  predicate Sendable(r: ReplyValue) {
    r == STOCK_BAD_REQUEST || r == Served(r.content, true) || r == Served(r.content, false)
  }

  lemma DigitsOneLine(s: string)
    requires IsDigits(s)
    ensures OneLine(s)
  {
  }

  lemma FixedTextsOneLine()
    ensures OneLine(CONTENT_LENGTH) && OneLine("Content-Type") && OneLine("Connection")
    ensures OneLine("application/json; charset=UTF-8") && OneLine("Keep-Alive") && OneLine("close")
  {
  }

  lemma SendableOneLine(r: ReplyValue)
    requires Sendable(r)
    ensures OneLineHeaders(r.headers)
  {
    DigitsOneLine(Decimal(|r.content|));
    FixedTextsOneLine();
    hide OneLine, Decimal;
  }

  lemma ThreeHeaders(a: Header, b: Header, c: Header)
    ensures HeaderLines([a, b, c]) == HeaderLine(a) + (HeaderLine(b) + HeaderLine(c))
  {
    var hs := [a, b, c];
    assert hs[..2] == [a, b] && [a, b][..1] == [a] && [a][..0] == [];
    HeaderLinesLast(hs);
    HeaderLinesLast([a, b]);
    HeaderLinesLast([a]);
    hide HeaderLine;
  }

  /** The length line that directly follows the first line is found there. */
  lemma LengthFieldAt(first: string, after: string)
    requires OneLine(first)
    ensures Find(first + LENGTH_FIELD + after, LENGTH_FIELD, 0) == |first|
  {
    var s := first + LENGTH_FIELD + after;
    assert s[|first|..|first| + |LENGTH_FIELD|] == LENGTH_FIELD;
    forall i: int | 0 <= i < |first|
      ensures !OccursAt(s, LENGTH_FIELD, i)
    {
      assert s[i] == first[i];
      DiffersAt(s, LENGTH_FIELD, i, 0);
    }
    FindIs(s, LENGTH_FIELD, 0, |first|);
  }

  lemma LengthRead(first: string, n: nat, after: string)
    requires OneLine(first) && (after == "" || !IsDigit(after[0]))
    ensures HasLength(first + LENGTH_FIELD + (Decimal(n) + after))
    ensures AnnouncedLength(first + LENGTH_FIELD + (Decimal(n) + after)) == n
  {
    LengthFieldAt(first, Decimal(n) + after);
    DecimalRoundTrip(n);
    LeadingDigitsOf(Decimal(n), after);
    hide Decimal, LeadingDigits, DecimalValue, Find;
    var s := first + LENGTH_FIELD + (Decimal(n) + after);
    assert s[|first| + |LENGTH_FIELD|..] == Decimal(n) + after;
  }

  lemma ServedHeadText(status: string, field: string, n: string, rest: string)
    ensures status + "\r\n" + (field + n + "\r\n" + rest) + "\r\n" ==
            status + ("\r\n" + field) + (n + ("\r\n" + rest + "\r\n"))
  {
  }

  lemma ServedHead(content: string, keepalive: bool) returns (after: string)
    ensures after != "" && after[0] == '\r'
    ensures Head(Served(content, keepalive)) == StatusText(Ok) + LENGTH_FIELD + (Decimal(|content|) + after)
  {
    hide Decimal, StatusText;
    var hs := ReplyHeaders(|content|, keepalive);
    ThreeHeaders(hs[0], hs[1], hs[2]);
    var b, c := HeaderLine(hs[1]), HeaderLine(hs[2]);
    after := "\r\n" + (b + c) + "\r\n";
    var n := Decimal(|content|);
    assert HeaderLine(hs[0]) == "Content-Length: " + n + "\r\n";
    assert LENGTH_FIELD == "\r\n" + "Content-Length: ";
    ServedHeadText(StatusText(Ok), "Content-Length: ", n, b + c);
  }

  function Line(s: string): string {
    s + "\r\n"
  }

  lemma Regrouped(s: string, a: string, b: string, c: string, z: string)
    ensures s + (a + (b + c)) + z == s + a + b + c + z
  {
  }

  lemma FirstLine()
    ensures StatusLine(Ok) == Line("HTTP/1.1 200 OK")
  {
  }

  lemma LengthLine(length: nat, keepalive: bool)
    ensures HeaderLine(ReplyHeaders(length, keepalive)[0]) == Line("Content-Length: " + Decimal(length))
  {
    hide Decimal;
    assert "Content-Length" + ": " == "Content-Length: ";
  }

  lemma TypeLine(length: nat, keepalive: bool)
    ensures HeaderLine(ReplyHeaders(length, keepalive)[1]) == Line("Content-Type: " + "application/json; charset=UTF-8")
  {
    hide Decimal;
    assert "Content-Type" + ": " == "Content-Type: ";
  }

  lemma ConnectionLine(length: nat, keepalive: bool)
    ensures HeaderLine(ReplyHeaders(length, keepalive)[2]) ==
              Line("Connection: " + if keepalive then "Keep-Alive" else "close")
  {
    hide Decimal;
    assert "Connection" + ": " == "Connection: ";
  }

  lemma HeadOfAnswer(content: string, keepalive: bool)
    ensures var hs := ReplyHeaders(|content|, keepalive);
            Head(Served(content, keepalive)) ==
              StatusLine(Ok) + HeaderLine(hs[0]) + HeaderLine(hs[1]) + HeaderLine(hs[2]) + "\r\n"
  {
    hide StatusLine, HeaderLine, HeaderLines, Decimal;
    var hs := ReplyHeaders(|content|, keepalive);
    ThreeHeaders(hs[0], hs[1], hs[2]);
    var s, a, b, c := StatusLine(Ok), HeaderLine(hs[0]), HeaderLine(hs[1]), HeaderLine(hs[2]);
    assert Head(Served(content, keepalive)) == s + (a + (b + c)) + "\r\n";
    hide ReplyHeaders, Head, Served;
    Regrouped(s, a, b, c, "\r\n");
  }

  /** The head of an answer, word for word. */
  lemma ServedHeadIs(content: string, keepalive: bool)
    ensures var hs := ReplyHeaders(|content|, keepalive);
            && Head(Served(content, keepalive)) ==
                 StatusLine(Ok) + HeaderLine(hs[0]) + HeaderLine(hs[1]) + HeaderLine(hs[2]) + "\r\n"
            && StatusLine(Ok) == Line("HTTP/1.1 200 OK")
            && HeaderLine(hs[0]) == Line("Content-Length: " + Decimal(|content|))
            && HeaderLine(hs[1]) == Line("Content-Type: " + "application/json; charset=UTF-8")
            && HeaderLine(hs[2]) == Line("Connection: " + if keepalive then "Keep-Alive" else "close")
  {
    hide *;
    HeadOfAnswer(content, keepalive);
    FirstLine();
    LengthLine(|content|, keepalive);
    TypeLine(|content|, keepalive);
    ConnectionLine(|content|, keepalive);
  }

  /** The head of a refusal, word for word. */
  lemma StockHeadIs()
    ensures Head(STOCK_BAD_REQUEST) == "HTTP/1.1 400 Bad Request\r\n\r\n"
  {
  }

  predicate EndsWith(s: string, t: string) {
    |t| <= |s| && s[|s| - |t|..] == t
  }

  const KEPT := "\r\nConnection: Keep-Alive\r\n\r\n"
  const CLOSED := "\r\nConnection: close\r\n\r\n"

  lemma EndsWithTail(before: string, tail: string)
    requires tail == KEPT || tail == CLOSED
    ensures EndsWith(before + tail, KEPT) <==> tail == KEPT
    ensures EndsWith(before + tail, CLOSED) <==> tail == CLOSED
  {
    var s := before + tail;
    assert s[|before|..] == tail && s[|s| - 6] == tail[|tail| - 6];
    assert KEPT[|KEPT| - 6] == 'v' && CLOSED[|CLOSED| - 6] == 's';
    assert EndsWith(s, KEPT) ==> s[|s| - |KEPT|..][|KEPT| - 6] == s[|s| - 6];
    assert EndsWith(s, CLOSED) ==> s[|s| - |CLOSED|..][|CLOSED| - 6] == s[|s| - 6];
  }

  lemma TailIs()
    ensures "\r\n" + ("Connection: " + "Keep-Alive" + "\r\n") + "\r\n" == KEPT
    ensures "\r\n" + ("Connection: " + "close" + "\r\n") + "\r\n" == CLOSED
    ensures KEPT != CLOSED
  {
    assert KEPT[14] == 'K' && CLOSED[14] == 'c';
  }

  lemma LastLine(before: string, type_: string, last: string, word: string, tail: string)
    requires "\r\n" + ("Connection: " + word + "\r\n") + "\r\n" == tail && last == Line("Connection: " + word)
    ensures before + Line(type_) + last + "\r\n" == (before + type_) + tail
  {
  }

  /** The last header line of an answer. */
  lemma LastHeader(content: string, keepalive: bool)
    ensures var head := Head(Served(content, keepalive));
            && (EndsWith(head, "\r\nConnection: Keep-Alive\r\n\r\n") <==> keepalive)
            && (EndsWith(head, "\r\nConnection: close\r\n\r\n") <==> !keepalive)
  {
    hide Head, Served, Decimal, Line, EndsWith, StatusLine, HeaderLine;
    ServedHeadIs(content, keepalive);
    TailIs();
    var hs := ReplyHeaders(|content|, keepalive);
    var before := StatusLine(Ok) + HeaderLine(hs[0]);
    var type_ := "Content-Type: " + "application/json; charset=UTF-8";
    var tail := if keepalive then KEPT else CLOSED;
    LastLine(before, type_, HeaderLine(hs[2]), if keepalive then "Keep-Alive" else "close", tail);
    EndsWithTail(before + type_, tail);
  }

  lemma ServedLength(content: string, keepalive: bool)
    ensures Framed(Served(content, keepalive))
  {
    var after := ServedHead(content, keepalive);
    StatusOneLine(Ok);
    LengthRead(StatusText(Ok), |content|, after);
  }

  /** A stock reply has no `Content-Length` line at all. */
  lemma StockLength()
    ensures !HasLength(Head(STOCK_BAD_REQUEST)) && AnnouncedLength(Head(STOCK_BAD_REQUEST)) == 0
  {
    var t := StatusText(BadRequest);
    StatusOneLine(BadRequest);
    hide StatusText;
    var head := t + BLANK_LINE;
    assert Head(STOCK_BAD_REQUEST) == t + "\r\n" + "" + "\r\n" == head;
    forall i: nat
      ensures !OccursAt(head, LENGTH_FIELD, i)
    {
      if i < |t| {
        DiffersAt(head, LENGTH_FIELD, i, 0);
      }
    }
  }

  /** Of the replies that are sent, all but the refusals announce their length. */
  lemma FramedUnlessRefusal(r: ReplyValue)
    requires Sendable(r)
    ensures Framed(r) <==> r != STOCK_BAD_REQUEST
  {
    StockLength();
    if r != STOCK_BAD_REQUEST {
      ServedLength(r.content, true);
      ServedLength(r.content, false);
    }
  }

  lemma HeadIsLong(r: ReplyValue)
    ensures |Head(r)| >= 4
  {
    hide StatusText, HeaderLines;
  }

  lemma HeadBegins(r: ReplyValue)
    ensures Head(r)[0] == 'H'
  {
    hide HeaderLines;
  }

  lemma ReadNext(head: string, content: string, more: string, heads: seq<bool>, lenient: bool)
    requires |head| >= 4 && Find(head + content + more, BLANK_LINE, 0) == |head| - 4
    requires AnnouncedLength(head) == |content| && (lenient || HasLength(head))
    ensures ReadReplies(head + content + more, [false] + heads, lenient) ==
            [Delivery(head, content)] + ReadReplies(more, heads, lenient)
  {
    hide AnnouncedLength, HasLength, Find;
    var s, hs := head + content + more, [false] + heads;
    assert s[..|head|] == head && s[|head|..] == content + more && hs[1..] == heads;
    assert (content + more)[..|content|] == content && (content + more)[|content|..] == more;
  }

  /** The client gets past a reply that is framed, or past any reply if it is lenient. */
  lemma ReadOneReply(r: ReplyValue, more: string, heads: seq<bool>, lenient: bool)
    requires Sendable(r) && (lenient || r != STOCK_BAD_REQUEST)
    ensures ReadReplies(Wire(r) + more, [false] + heads, lenient) ==
            [Expected(r, false)] + ReadReplies(more, heads, lenient)
  {
    SendableOneLine(r);
    HeadEndsAtFirstBlankLine(r, more);
    FramedUnlessRefusal(r);
    StockLength();
    HeadIsLong(r);
    hide Head, AnnouncedLength, HasLength, Find, Sendable, ReadReplies;
    assert Wire(r) + more == Head(r) + r.content + more;
    ReadNext(Head(r), r.content, more, heads, lenient);
  }

  /** To a client that follows the standard, everything behind a refusal is its content. */
  lemma ReadRefusal(more: string, heads: seq<bool>)
    ensures ReadReplies(Wire(STOCK_BAD_REQUEST) + more, [false] + heads, false) ==
            [Delivery(Head(STOCK_BAD_REQUEST), more)]
  {
    var r := STOCK_BAD_REQUEST;
    HeadEndsAtFirstBlankLine(r, more);
    StockLength();
    HeadIsLong(r);
    hide Head, AnnouncedLength, HasLength, Find;
    var s := Wire(r) + more;
    assert s[..|Head(r)|] == Head(r) && s[|Head(r)|..] == more;
  }

  lemma ReadHeadOnly(head: string, more: string, heads: seq<bool>, lenient: bool)
    requires |head| >= 4 && Find(head + more, BLANK_LINE, 0) == |head| - 4
    ensures ReadReplies(head + more, [true] + heads, lenient) ==
            [Delivery(head, "")] + ReadReplies(more, heads, lenient)
  {
    hide AnnouncedLength, HasLength, Find;
    var s, hs := head + more, [true] + heads;
    assert s[..|head|] == head && s[|head|..] == more && hs[1..] == heads;
  }

  /** To a client that sent a HEAD request, the content is the begin of the next reply. */
  lemma ReadHeadReply(r: ReplyValue, more: string, heads: seq<bool>, lenient: bool)
    requires Sendable(r)
    ensures ReadReplies(Wire(r) + more, [true] + heads, lenient) ==
            [Expected(r, true)] + ReadReplies(r.content + more, heads, lenient)
  {
    SendableOneLine(r);
    HeadEndsAtFirstBlankLine(r, more);
    HeadIsLong(r);
    hide Head, Find, Sendable, ReadReplies;
    assert Wire(r) + more == Head(r) + (r.content + more);
    ReadHeadOnly(Head(r), r.content + more, heads, lenient);
  }

  lemma NoReplies(s: string, lenient: bool)
    ensures ReadReplies(s, [], lenient) == []
  {
  }

  /** A text that does not begin like a reply: `json_dumps` prints an object, which begins with `{`. */
  predicate IsDocument(s: string) {
    s != "" ==> s[0] != 'H'
  }

  /** Behind bytes that do not begin like a reply, the client finds no reply that was sent. */
  lemma DocumentIsMisread(content: string, us: seq<ReplyValue>, heads: seq<bool>, lenient: bool)
    requires content != "" && IsDocument(content) && us != [] && |heads| == |us|
    ensures ReadReplies(content + Stream(us), heads, lenient) != Deliveries(us, heads)
  {
    HeadBegins(us[0]);
    hide Head, AnnouncedLength, HasLength, Find, Stream;
    var s := content + Stream(us);
    assert s[0] == content[0];
    assert Deliveries(us, heads)[0].head == Head(us[0]);
  }

  /** The client is behind the reply when it has read it. */
  predicate Passable(r: ReplyValue, head: bool, lenient: bool) {
    if head then r.content == "" else lenient || r != STOCK_BAD_REQUEST
  }

  /** All replies before the last are passable. */
  predicate Readable(rs: seq<ReplyValue>, heads: seq<bool>, lenient: bool)
    requires |heads| == |rs|
  {
    forall i | 0 <= i < |rs| - 1 :: Passable(rs[i], heads[i], lenient)
  }

  lemma ReadableFirst(rs: seq<ReplyValue>, heads: seq<bool>, lenient: bool)
    requires |rs| > 1 && |heads| == |rs|
    ensures Readable(rs, heads, lenient) <==>
              Passable(rs[0], heads[0], lenient) && Readable(rs[1..], heads[1..], lenient)
  {
    hide Passable;
    var us, hs := rs[1..], heads[1..];
    assert forall i | 0 < i < |rs| :: us[i - 1] == rs[i] && hs[i - 1] == heads[i];
    assert forall i | 0 <= i < |us| - 1 :: us[i] == rs[i + 1] && hs[i] == heads[i + 1];
    if Passable(rs[0], heads[0], lenient) && Readable(us, hs, lenient) {
      forall i | 0 <= i < |rs| - 1
        ensures Passable(rs[i], heads[i], lenient)
      {
        assert i > 0 ==> Passable(us[i - 1], hs[i - 1], lenient);
      }
    }
  }

  lemma StreamIsLong(rs: seq<ReplyValue>)
    ensures rs != [] ==> Stream(rs) != ""
  {
    hide Head;
    if rs != [] {
      HeadIsLong(rs[0]);
    }
  }

  /** The client has the next reply, and goes on behind it if it is passable. */
  lemma ReadPassable(r: ReplyValue, more: string, heads: seq<bool>, lenient: bool)
    requires Sendable(r) && heads != [] && Passable(r, heads[0], lenient)
    ensures ReadReplies(Wire(r) + more, heads, lenient) ==
            [Expected(r, heads[0])] + ReadReplies(more, heads[1..], lenient)
  {
    hide ReadReplies, Wire, Sendable;
    assert heads == [heads[0]] + heads[1..];
    if heads[0] {
      ReadHeadReply(r, more, heads[1..], lenient);
      assert "" + more == more;
    } else {
      ReadOneReply(r, more, heads[1..], lenient);
    }
  }

  /** The client fails behind a reply that is not passable, unless it is the last. */
  lemma ReadImpassable(rs: seq<ReplyValue>, heads: seq<bool>, lenient: bool)
    requires rs != [] && |heads| == |rs| && Sendable(rs[0]) && IsDocument(rs[0].content)
    requires !Passable(rs[0], heads[0], lenient)
    ensures ReadReplies(Stream(rs), heads, lenient) == Deliveries(rs, heads) <==> |rs| == 1
  {
    hide ReadReplies, Wire, Head, Sendable, IsDocument;
    var r, us, hs := rs[0], rs[1..], heads[1..];
    var ds := Deliveries(rs, heads);
    assert heads == [heads[0]] + hs;
    assert ds == [Expected(r, heads[0])] + Deliveries(us, hs);
    if heads[0] {
      ReadHeadReply(r, Stream(us), hs, lenient);
      if us == [] {
        NoReplies(r.content + "", lenient);
      } else {
        DocumentIsMisread(r.content, us, hs, lenient);
        assert ds[1..] == Deliveries(us, hs);
      }
    } else {
      ReadRefusal(Stream(us), hs);
      StreamIsLong(us);
    }
  }

  lemma ReadLast(r: ReplyValue, heads: seq<bool>, lenient: bool)
    requires Sendable(r) && |heads| == 1
    ensures ReadReplies(Wire(r) + "", heads, lenient) == [Expected(r, heads[0])]
  {
    hide ReadReplies, Wire, Head, Sendable;
    if Passable(r, heads[0], lenient) {
      ReadPassable(r, "", heads, lenient);
      assert heads[1..] == [];
      NoReplies("", lenient);
    } else if heads[0] {
      assert heads == [true] + [];
      ReadHeadReply(r, "", [], lenient);
      NoReplies(r.content + "", lenient);
    } else {
      assert heads == [false] + [];
      ReadRefusal("", []);
    }
  }

  /** If all replies before the last are passable, the client recovers them: each head, and exactly
      its content. */
  lemma {:induction false} RepliesRoundTrip(rs: seq<ReplyValue>, heads: seq<bool>, lenient: bool)
    requires |heads| == |rs| && (forall r | r in rs :: Sendable(r)) && Readable(rs, heads, lenient)
    ensures ReadReplies(Stream(rs), heads, lenient) == Deliveries(rs, heads)
    decreases |rs|
  {
    hide ReadReplies, Wire, Head, Sendable, Passable;
    if rs == [] {
      NoReplies("", lenient);
    } else {
      var r, us, hs := rs[0], rs[1..], heads[1..];
      assert Deliveries(rs, heads) == [Expected(r, heads[0])] + Deliveries(us, hs);
      if us == [] {
        ReadLast(r, heads, lenient);
      } else {
        ReadableFirst(rs, heads, lenient);
        RepliesRoundTrip(us, hs, lenient);
        ReadPassable(r, Stream(us), heads, lenient);
      }
    }
  }

  /** The client recovers the replies exactly if all before the last are passable. */
  lemma {:induction false} RepliesRecovered(rs: seq<ReplyValue>, heads: seq<bool>, lenient: bool)
    requires |heads| == |rs| && forall r | r in rs :: Sendable(r) && IsDocument(r.content)
    ensures ReadReplies(Stream(rs), heads, lenient) == Deliveries(rs, heads) <==> Readable(rs, heads, lenient)
    decreases |rs|
  {
    hide ReadReplies, Wire, Head, Sendable, Passable, IsDocument;
    if Readable(rs, heads, lenient) {
      RepliesRoundTrip(rs, heads, lenient);
    } else {
      var r, us, hs := rs[0], rs[1..], heads[1..];
      ReadableFirst(rs, heads, lenient);
      if Passable(r, heads[0], lenient) {
        RepliesRecovered(us, hs, lenient);
        ReadPassable(r, Stream(us), heads, lenient);
        assert Deliveries(rs, heads)[1..] == Deliveries(us, hs);
      } else {
        ReadImpassable(rs, heads, lenient);
      }
    }
  }
}
