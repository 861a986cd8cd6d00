/** When a client recovers the replies of a run. Two of the server's answers do not end where a
    client that follows section 4.4 of RFC 2616 looks for their end:

    A refusal has no `Content-Length` line (src/connection.cpp:103), and on a connection that was kept
    alive it does not end the connection (src/connection.cpp:125). The client takes every later reply
    for its content.

    The method of a request is never looked at (src/request_handler.cpp:114-199), so the answer to a
    HEAD request has content. The client takes it for the begin of the next reply. */
module Recovery {
  import opened Text
  import opened Http
  import opened RequestParser
  import opened Grammar
  import opened Rejection
  import opened Reply
  import opened Framing
  import opened Connection
  import opened Sessions

  /** A read after which the parser has decided. */
  predicate Decides(k: Conn, e: Event)
    requires Safe(k.parser)
  {
    e.ReadDone? && Feed(k.parser, e.data).result != Indeterminate
  }

  /** A read whose reply does not end where the client looks for its end. `head` tells whether the
      client expects the reply to answer a HEAD request. */
  predicate Spoils(k: Conn, e: Event, head: bool)
    requires Safe(k.parser)
  {
    && Decides(k, e)
    && if Feed(k.parser, e.data).result == True then head && e.json != "" else !head
  }

  /** No read decides any more. */
  predicate Quiet(k: Conn, es: seq<Event>)
    requires Safe(k.parser) && CanRun(k, es)
    decreases |es|
  {
    es == [] || (!Decides(k, es[0]) && Quiet(Apply(k, es[0]), es[1..]))
  }

  predicate HeadAt(heads: seq<bool>, i: nat) {
    i < |heads| && heads[i]
  }

  /** Behind a read that spoils the stream and leaves the keep-alive flag set, no read decides. */
  predicate Orderly(k: Conn, es: seq<Event>, heads: seq<bool>)
    requires Safe(k.parser) && CanRun(k, es)
    decreases |es|
  {
    es != [] ==>
      var l := Apply(k, es[0]);
      && (Spoils(k, es[0], HeadAt(heads, |k.sent|)) && l.keepalive ==> Quiet(l, es[1..]))
      && Orderly(l, es[1..], heads)
  }

  lemma SentByOne(k: Conn, e: Event)
    requires Safe(k.parser) && Enabled(k, e)
    ensures var sent := Apply(k, e).sent;
            if Decides(k, e) then |sent| == |k.sent| + 1 && sent[..|k.sent|] == k.sent else sent == k.sent
  {
    hide Feed, Step, Wire, WantsKeepalive, Safe, Consumed;
  }

  /** The reply to a read, as the client sees it. */
  lemma SpoilsIfImpassable(k: Conn, e: Event, head: bool, initial: bool)
    requires Invariant(k, initial) && Safe(k.parser) && Enabled(k, e) && Decides(k, e)
    ensures var sent := Apply(k, e).sent;
            && |sent| == |k.sent| + 1
            && (Passable(sent[|k.sent|], head, false) <==> !Spoils(k, e, head))
  {
    hide Feed, Step, Wire, Stream, Awaits, Accepted, Answers, Sendable, WantsKeepalive, Safe, Consumed;
    assert "" + e.json == e.json;
  }

  /** A run sends nothing exactly if it is quiet. */
  lemma {:induction false} SentByRun(k: Conn, es: seq<Event>)
    requires Safe(k.parser) && CanRun(k, es)
    ensures k.sent <= Run(k, es).sent
    ensures Quiet(k, es) <==> |Run(k, es).sent| == |k.sent|
    decreases |es|
  {
    hide Apply, Enabled, Decides, Safe;
    if es != [] {
      SentByOne(k, es[0]);
      SentByRun(Apply(k, es[0]), es[1..]);
    }
  }

  /** Once the connection is shut, or will be with the write that is outstanding, nothing is read. */
  lemma {:induction false} ClosingIsQuiet(k: Conn, es: seq<Event>)
    requires Safe(k.parser) && CanRun(k, es)
    requires k.pendingReads == 0 && k.pendingWrites <= 1 && !k.keepalive
    ensures Quiet(k, es)
    decreases |es|
  {
    hide Feed, Safe;
    if es != [] {
      ClosingIsQuiet(Apply(k, es[0]), es[1..]);
    }
  }

  lemma SpoilsDecides(k: Conn, e: Event, head: bool)
    requires Safe(k.parser) && Spoils(k, e, head)
    ensures Decides(k, e)
  {
  }

  lemma {:induction false} QuietIsOrderly(k: Conn, es: seq<Event>, heads: seq<bool>)
    requires Safe(k.parser) && CanRun(k, es) && Quiet(k, es)
    ensures Orderly(k, es, heads)
    decreases |es|
  {
    hide Apply, Enabled, Safe, Decides, Spoils;
    if es != [] {
      if Spoils(k, es[0], HeadAt(heads, |k.sent|)) {
        SpoilsDecides(k, es[0], HeadAt(heads, |k.sent|));
      }
      QuietIsOrderly(Apply(k, es[0]), es[1..], heads);
    }
  }

  lemma DecidedIsWriting(k: Conn, e: Event, initial: bool)
    requires Invariant(k, initial) && Safe(k.parser) && Enabled(k, e) && Decides(k, e)
    ensures Apply(k, e).pendingReads == 0 && Apply(k, e).pendingWrites == 1
  {
    hide Feed, Step, Wire, Stream, Awaits, Accepted, Answers, Sendable, WantsKeepalive, Safe, Consumed;
  }

  /** The replies `before` are behind the client. */
  predicate Passed(before: seq<ReplyValue>, heads: seq<bool>)
    requires |before| <= |heads|
  {
    forall i | 0 <= i < |before| :: Passable(before[i], heads[i], false)
  }

  lemma PassedOneMore(before: seq<ReplyValue>, rs: seq<ReplyValue>, heads: seq<bool>)
    requires |before| < |rs| <= |heads| && before == rs[..|before|] && Passed(before, heads)
    requires Passable(rs[|before|], heads[|before|], false)
    ensures Passed(rs[..|before| + 1], heads)
  {
    hide Passable;
    assert forall i | 0 <= i < |before| :: rs[i] == before[i];
  }

  lemma StoppedAt(before: seq<ReplyValue>, rs: seq<ReplyValue>, heads: seq<bool>)
    requires |before| < |rs| == |heads| && before == rs[..|before|] && Passed(before, heads)
    requires !Passable(rs[|before|], heads[|before|], false)
    ensures Readable(rs, heads, false) <==> |rs| == |before| + 1
  {
    hide Passable;
    assert forall i | 0 <= i < |before| :: rs[i] == before[i];
  }

  lemma PassedIsReadable(rs: seq<ReplyValue>, heads: seq<bool>)
    requires |rs| == |heads| && Passed(rs, heads)
    ensures Readable(rs, heads, false)
  {
    hide Passable;
  }

  lemma {:induction false} OrderlyIsReadable(k: Conn, es: seq<Event>, heads: seq<bool>, initial: bool)
    requires Invariant(k, initial) && Safe(k.parser) && CanRun(k, es)
    requires |heads| == |Run(k, es).sent| && k.sent <= Run(k, es).sent && Passed(k.sent, heads)
    ensures Readable(Run(k, es).sent, heads, false) <==> Orderly(k, es, heads)
    decreases |es|
  {
    hide Invariant, Apply, Enabled, Decides, Spoils, Quiet, Safe, Passed, Readable, Passable;
    if es == [] {
      PassedIsReadable(k.sent, heads);
    } else {
      var e, more := es[0], es[1..];
      var l := Apply(k, e);
      StepKeepsInvariant(k, e, initial);
      SentByOne(k, e);
      SentByRun(l, more);
      var sent, n := Run(k, es).sent, |k.sent|;
      var head := HeadAt(heads, n);
      if !Decides(k, e) {
        if Spoils(k, e, head) {
          SpoilsDecides(k, e, head);
        }
        OrderlyIsReadable(l, more, heads, initial);
      } else {
        SpoilsIfImpassable(k, e, head, initial);
        assert sent[n] == l.sent[n] && heads[n] == head && k.sent == sent[..n];
        if Spoils(k, e, head) {
          DecidedIsWriting(k, e, initial);
          if !l.keepalive {
            ClosingIsQuiet(l, more);
          }
          if Quiet(l, more) {
            QuietIsOrderly(l, more, heads);
          }
          StoppedAt(k.sent, sent, heads);
        } else {
          PassedOneMore(k.sent, sent, heads);
          assert sent[..n + 1] == l.sent;
          OrderlyIsReadable(l, more, heads, initial);
        }
      }
    }
  }

  /** In every run, a client that follows the standard recovers the replies if and only if nothing is
      answered behind a read that spoils the stream and leaves the keep-alive flag set: one that is
      refused, or a HEAD request that is answered by a document. */
  lemma RecoveredIfOrderly(k: Conn, es: seq<Event>, heads: seq<bool>)
    requires Started(k) && CanRun(k, es) && |heads| == |Run(k, es).sent| && Documents(es)
    ensures var l := Run(k, es);
            ReadReplies(l.wire, heads, false) == Deliveries(l.sent, heads) <==> Orderly(k, es, heads)
  {
    hide ReadReplies, Deliveries, Readable, Orderly, Framed, Invariant, CanRun, Run, Documents;
    StartedInvariant(k);
    EveryRunIsReadable(k, es, heads, false);
    OrderlyIsReadable(k, es, heads, k.keepalive);
  }

  /** What a client expects that knows which requests were refused. */
  function HeadsOf(rs: seq<ReplyValue>, handled: seq<RequestValue>): (heads: seq<bool>)
    requires |Accepted(rs)| == |handled|
    ensures |heads| == |rs|
  {
    if rs == [] then []
    else
      var n := |rs| - 1;
      if rs[n] == STOCK_BAD_REQUEST then HeadsOf(rs[..n], handled) + [false]
      else HeadsOf(rs[..n], handled[..|handled| - 1]) + [IsHead(handled[|handled| - 1])]
  }

  lemma {:induction false} RefusalsAreNoHeads(rs: seq<ReplyValue>, handled: seq<RequestValue>)
    requires |Accepted(rs)| == |handled|
    ensures forall i | 0 <= i < |rs| :: rs[i] == STOCK_BAD_REQUEST ==> !HeadsOf(rs, handled)[i]
    decreases |rs|
  {
    if rs != [] {
      var n := |rs| - 1;
      RefusalsAreNoHeads(rs[..n], if rs[n] == STOCK_BAD_REQUEST then handled else handled[..|handled| - 1]);
    }
  }

  lemma InvariantPairs(l: Conn, initial: bool)
    requires Invariant(l, initial)
    ensures |Accepted(l.sent)| == |l.handled|
  {
    hide Stream, Sendable, Awaits, Answers, WantsKeepalive, Safe;
  }

  /** In terms of what was handled and sent: the client recovers the replies if and only if before the
      last of them there is neither a refusal nor content that answers a HEAD request. */
  lemma RecoveredByMethods(k: Conn, es: seq<Event>)
    requires Started(k) && CanRun(k, es) && Documents(es)
    ensures var l := Run(k, es);
            && |Accepted(l.sent)| == |l.handled|
            && var heads := HeadsOf(l.sent, l.handled);
               ReadReplies(l.wire, heads, false) == Deliveries(l.sent, heads) <==>
                 forall i | 0 <= i < |l.sent| - 1 ::
                   l.sent[i] != STOCK_BAD_REQUEST && (heads[i] ==> l.sent[i].content == "")
  {
    hide ReadReplies, Deliveries, Framed, Invariant, CanRun, Run, Documents, HeadsOf, Accepted;
    var l := Run(k, es);
    EveryRun(k, es);
    InvariantPairs(l, k.keepalive);
    var heads := HeadsOf(l.sent, l.handled);
    EveryRunIsReadable(k, es, heads, false);
    RefusalsAreNoHeads(l.sent, l.handled);
    assert forall i | 0 <= i < |l.sent| :: Passable(l.sent[i], heads[i], false) <==>
             (l.sent[i] != STOCK_BAD_REQUEST && (heads[i] ==> l.sent[i].content == ""));
  }

  /** A read that cannot begin a request, and the completion of the refusal. */
  function Refusal(data: string, json: string): seq<Event> {
    [ReadDone("(" + data, json), WriteDone]
  }

  /** The refusal is sent, and the connection that was kept alive listens again. */
  lemma RefusalGoesOn(k: Conn, data: string, json: string)
    requires Listening(k) && k.keepalive && |data| < BUFFER_SIZE
    ensures Safe(k.parser) && CanRun(k, Refusal(data, json))
    ensures var l := Run(k, Refusal(data, json));
            && Listening(l) && l.keepalive && l.handled == k.handled && l.sent == k.sent + [STOCK_BAD_REQUEST]
  {
    var e := ReadDone("(" + data, json);
    FeedStep(k.parser, "(" + data);
    var l := Apply(k, e);
    RunOne(k, e);
    RunOne(l, WriteDone);
    RunConcat(k, [e], [WriteDone]);
    assert Refusal(data, json) == [e] + [WriteDone];
  }

  lemma WireOfRun(k: Conn, es: seq<Event>)
    requires Started(k) && CanRun(k, es)
    ensures Run(k, es).wire == Stream(Run(k, es).sent)
  {
    hide Run, CanRun, Invariant, Stream;
    EveryRun(k, es);
    InvariantStream(Run(k, es), k.keepalive);
  }

  lemma SwallowedStream(r: ReplyValue, s: ReplyValue, head: bool)
    requires Sendable(r) && r != STOCK_BAD_REQUEST
    ensures ReadReplies(Stream([r, STOCK_BAD_REQUEST, s]), [false, false, head], false) ==
            [Expected(r, false), Delivery(Head(STOCK_BAD_REQUEST), Wire(s))]
  {
    hide ReadReplies, Wire, Head, Sendable;
    var stock := STOCK_BAD_REQUEST;
    assert [r, stock, s][1..] == [stock, s] && [stock, s][1..] == [s] && [s][1..] == [];
    assert Stream([s]) == Wire(s) + "" == Wire(s);
    assert [false, false, head] == [false] + [false, head] && [false, head] == [false] + [head];
    ReadOneReply(r, Stream([stock, s]), [false, head], false);
    ReadRefusal(Wire(s), [head]);
  }

  /** A session that fails: a request, a refused read, another request. The second answer arrives
      as the content of the refusal. */
  lemma RefusalSwallowsTheNext(k: Conn, v: Visit, data: string, json: string, w: Visit)
    requires Started(k) && ValidVisit(v) && WantsKeepalive(Denote(v.m)) && ValidVisit(w) && |data| < BUFFER_SIZE
    requires !IsHead(Denote(v.m))
    ensures CanRun(k, Script(v) + Refusal(data, json) + Script(w))
    ensures var l := Run(k, Script(v) + Refusal(data, json) + Script(w));
            var r, s := Served(v.json, true), Served(w.json, WantsKeepalive(Denote(w.m)));
            && l.sent == [r, STOCK_BAD_REQUEST, s]
            && ReadReplies(l.wire, [false, false, IsHead(Denote(w.m))], false) ==
                 [Delivery(Head(r), v.json), Delivery(Head(STOCK_BAD_REQUEST), Wire(s))]
  {
    hide Run, CanRun, Listening, Script, Refusal, ValidVisit, Denote;
    hide WantsKeepalive, Served, Wire, Head, ReadReplies, Stream;
    hide Started, Safe;
    StartedListens(k);
    VisitIsAnswered(k, v);
    var l := Run(k, Script(v));
    RefusalGoesOn(l, data, json);
    var m := Run(l, Refusal(data, json));
    VisitIsAnswered(m, w);
    RunConcat(k, Script(v), Refusal(data, json));
    RunConcat(k, Script(v) + Refusal(data, json), Script(w));
    var es := Script(v) + Refusal(data, json) + Script(w);
    var r, s := Served(v.json, true), Served(w.json, WantsKeepalive(Denote(w.m)));
    assert Run(k, es).sent == [] + [r] + [STOCK_BAD_REQUEST] + [s] == [r, STOCK_BAD_REQUEST, s];
    WireOfRun(k, es);
    ServedIsSendable(v.json, true);
    SwallowedStream(r, s, IsHead(Denote(w.m)));
  }

  /** The text of a HEAD request, and a visit with it. */
  const HEAD_STATUS := "HEAD /status? HTTP/1.1\r\n\r\n"

  function HeadVisit(json: string): Visit {
    Visit(Bare("HEAD", "/status?", "1", "1"), [HEAD_STATUS], json)
  }

  lemma NoHeaderKeepsAlive(r: RequestValue)
    requires r.headers == [] && r.major == 1 && r.minor == 1
    ensures WantsKeepalive(r)
  {
  }

  lemma HeadTexts()
    ensures IsToken("HEAD") && IsUri("/status?") && IsNumeral("1") && DecimalValue("1") == 1
    ensures Flat([HEAD_STATUS]) == HEAD_STATUS
  {
    assert [HEAD_STATUS][1..] == [];
    assert "1"[..0] == "";
    hide HEAD_STATUS;
  }

  lemma HeadLine()
    ensures RequestLine("HEAD", "/status?", "1", "1") + "\r\n" == HEAD_STATUS
  {
  }

  lemma HeadVisitIsValid(json: string)
    ensures var v := HeadVisit(json);
            ValidVisit(v) && IsHead(Denote(v.m)) && WantsKeepalive(Denote(v.m))
  {
    HeadTexts();
    HeadLine();
    hide IsToken, IsUri, IsNumeral, DecimalValue, RequestLine, Flat, ValidMessage, MessageText, WantsKeepalive;
    BareIsValid("HEAD", "/status?", "1", "1");
    NoHeaderKeepsAlive(Denote(HeadVisit(json).m));
  }

  lemma MisledStream(r: ReplyValue, s: ReplyValue, head: bool)
    requires Sendable(r) && r.content != "" && IsDocument(r.content)
    ensures ReadReplies(Stream([r, s]), [true, head], false) ==
            [Expected(r, true)] + ReadReplies(r.content + Wire(s), [true, head][1..], false)
    ensures ReadReplies(Stream([r, s]), [true, head], false) != Deliveries([r, s], [true, head])
  {
    hide ReadReplies, Wire, Head, Sendable, IsDocument;
    assert [r, s][1..] == [s] && [s][1..] == [] && [true, head] == [true] + [head] && [true, head][1..] == [head];
    assert Stream([s]) == Wire(s) + "" == Wire(s);
    ReadHeadReply(r, Wire(s), [head], false);
    ReadImpassable([r, s], [true, head], false);
  }

  /** Another session that fails, with nothing refused: a HEAD request, and any request. The client
      reads the document that answers the first as the head of the second reply. */
  lemma HeadMisleads(k: Conn, v: Visit, w: Visit)
    requires Started(k) && ValidVisit(v) && WantsKeepalive(Denote(v.m)) && IsHead(Denote(v.m)) && ValidVisit(w)
    requires v.json != "" && IsDocument(v.json)
    ensures CanRun(k, Script(v) + Script(w))
    ensures var l := Run(k, Script(v) + Script(w));
            var r, s := Served(v.json, true), Served(w.json, WantsKeepalive(Denote(w.m)));
            var heads := [true, IsHead(Denote(w.m))];
            && l.sent == [r, s]
            && ReadReplies(l.wire, heads, false) ==
                 [Delivery(Head(r), "")] + ReadReplies(v.json + Wire(s), heads[1..], false)
            && ReadReplies(l.wire, heads, false) != Deliveries(l.sent, heads)
  {
    hide Run, CanRun, Listening, Script, ValidVisit, Denote, IsDocument;
    hide WantsKeepalive, Served, Wire, Head, ReadReplies, Stream, IsHead;
    hide Started, Safe;
    StartedListens(k);
    VisitIsAnswered(k, v);
    VisitIsAnswered(Run(k, Script(v)), w);
    var es := Script(v) + Script(w);
    RunConcat(k, Script(v), Script(w));
    var r, s := Served(v.json, true), Served(w.json, WantsKeepalive(Denote(w.m)));
    assert Run(k, es).sent == [] + [r] + [s] == [r, s];
    WireOfRun(k, es);
    ServedIsSendable(v.json, true);
    MisledStream(r, s, IsHead(Denote(w.m)));
  }
}
