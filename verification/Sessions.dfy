/** Whole keep-alive sessions: every request is answered once, in order, however its bytes are
    cut into reads; and what is lost when a read goes on behind the end of a request. */
module Sessions {
  import opened Text
  import opened Http
  import opened RequestParser
  import opened Grammar
  import opened Completeness
  import opened HeaderRules
  import opened Reply
  import opened Framing
  import opened Connection

  /** One request of a session: its message, the reads in which its bytes arrive, and the
      document that answers it. */
  datatype Visit = Visit(m: Message, chunks: seq<string>, json: string)

  predicate ValidVisit(v: Visit) {
    && ValidMessage(v.m)
    && Flat(v.chunks) == MessageText(v.m)
    && forall i | 0 <= i < |v.chunks| :: 0 < |v.chunks[i]| <= BUFFER_SIZE
  }

  function Arrivals(chunks: seq<string>, json: string): seq<Event> {
    if chunks == [] then [] else [ReadDone(chunks[0], json)] + Arrivals(chunks[1..], json)
  }

  /** The reads of a request, then the completion of the reply. */
  function Script(v: Visit): seq<Event> {
    Arrivals(v.chunks, v.json) + [WriteDone]
  }

  function Scripts(vs: seq<Visit>): seq<Event> {
    if vs == [] then [] else Script(vs[0]) + Scripts(vs[1..])
  }

  /** A connection that waits for the first byte of a request. */
  predicate Listening(k: Conn) {
    && Fresh(k.parser) && k.pendingReads == 1 && k.pendingWrites == 0 && !k.shut
    && k.reply.headers == [] && k.reply.content == "" && k.since == ""
  }

  lemma {:induction false} RunConcat(k: Conn, es: seq<Event>, fs: seq<Event>)
    requires Safe(k.parser) && CanRun(k, es) && CanRun(Run(k, es), fs)
    ensures CanRun(k, es + fs) && Run(k, es + fs) == Run(Run(k, es), fs)
    decreases |es|
  {
    hide Apply, Enabled, Safe;
    if es == [] {
      assert es + fs == fs;
    } else {
      assert (es + fs)[1..] == es[1..] + fs;
      assert (es + fs)[0] == es[0];
      RunConcat(Apply(k, es[0]), es[1..], fs);
    }
  }

  lemma RunOne(k: Conn, e: Event)
    requires Safe(k.parser) && Enabled(k, e)
    ensures CanRun(k, [e]) && Run(k, [e]) == Apply(k, e)
  {
    hide Apply, Enabled, Safe;
    assert [e][1..] == [];
    assert CanRun(Apply(k, e), []);
  }

  /** The state after the last read of a request, when the reply is being written. */
  predicate Answered(k: Conn, l: Conn, r: RequestValue, json: string) {
    && l.parser.req == r && l.keepalive == WantsKeepalive(r)
    && l.pendingReads == 0 && l.pendingWrites == 1 && l.shut == k.shut
    && l.handled == k.handled + [r]
    && l.reply == Served(k.reply.content + json, WantsKeepalive(r))
    && l.sent == k.sent + [l.reply]
  }

  lemma LastRead(k: Conn, data: string, json: string)
    requires Safe(k.parser) && k.pendingReads == 1 && k.pendingWrites == 0
    requires Feed(k.parser, data).result == True
    ensures Safe(Read(k, data, json).parser)
    ensures Answered(k, Read(k, data, json), Feed(k.parser, data).config.req, json)
  {
    hide Feed, Step, Wire, Served, WantsKeepalive;
  }

  lemma EarlierRead(k: Conn, data: string, json: string)
    requires Safe(k.parser) && k.pendingReads == 1 && Feed(k.parser, data).result == Indeterminate
    ensures Read(k, data, json) == k.(parser := Feed(k.parser, data).config, since := k.since + data)
  {
    hide Feed, Step;
    FeedRest(k.parser, data);
    ConsumedIs(data, |data|, "");
    assert data[..|data|] == data;
  }

  lemma AnsweredFrom(k: Conn, l: Conn, m: Conn, r: RequestValue, json: string)
    requires Answered(l, m, r, json)
    requires l.shut == k.shut && l.handled == k.handled && l.sent == k.sent && l.reply == k.reply
    ensures Answered(k, m, r, json)
  {
  }

  lemma NothingLeft(chunks: seq<string>)
    requires Flat(chunks) == "" && forall i | 0 <= i < |chunks| :: 0 < |chunks[i]|
    ensures chunks == []
  {
  }

  /** Reads whose bytes together end exactly at the end of a request. */
  lemma {:induction false} ReadRequest(k: Conn, chunks: seq<string>, json: string)
    requires Safe(k.parser) && k.pendingReads == 1 && k.pendingWrites == 0
    requires forall i | 0 <= i < |chunks| :: 0 < |chunks[i]| <= BUFFER_SIZE
    requires Feed(k.parser, Flat(chunks)).result == True && Feed(k.parser, Flat(chunks)).rest == ""
    ensures CanRun(k, Arrivals(chunks, json))
    ensures Answered(k, Run(k, Arrivals(chunks, json)), Feed(k.parser, Flat(chunks)).config.req, json)
    decreases |chunks|
  {
    hide Feed, Step, Answered, Read, Safe;
    if chunks == [] {
      FeedNothing(k.parser);
    } else {
      var data, more := chunks[0], chunks[1..];
      FeedConcat(k.parser, data, Flat(more));
      var o := Feed(k.parser, data);
      var es := Arrivals(chunks, json);
      assert es[0] == ReadDone(data, json) && es[1..] == Arrivals(more, json);
      if o.result == Indeterminate {
        EarlierRead(k, data, json);
        var l := Read(k, data, json);
        ReadRequest(l, more, json);
        AnsweredFrom(k, l, Run(l, Arrivals(more, json)), Feed(k.parser, Flat(chunks)).config.req, json);
      } else {
        LastRead(k, data, json);
        NothingLeft(more);
        assert CanRun(Read(k, data, json), []);
      }
    }
  }

  lemma WriteCompletes(k: Conn, l: Conn, r: RequestValue, json: string)
    requires Listening(k) && Safe(l.parser) && Answered(k, l, r, json)
    ensures Enabled(l, WriteDone)
    ensures var m := Apply(l, WriteDone);
            && m.handled == k.handled + [r] && m.sent == k.sent + [Served(json, WantsKeepalive(r))]
            && m.keepalive == WantsKeepalive(r)
            && (if WantsKeepalive(r) then Listening(m) else m.shut && m.pendingReads == 0 && m.pendingWrites == 0)
  {
    hide Served, WantsKeepalive;
    assert "" + json == json;
  }

  /** One visit: the request is handled once and answered once. Afterwards the connection listens
      again if the request wants that, and is shut down if not. */
  lemma VisitIsAnswered(k: Conn, v: Visit)
    requires Listening(k) && ValidVisit(v)
    ensures Safe(k.parser) && CanRun(k, Script(v))
    ensures var l := Run(k, Script(v));
            var r := Denote(v.m);
            && l.handled == k.handled + [r]
            && l.sent == k.sent + [Served(v.json, WantsKeepalive(r))]
            && l.keepalive == WantsKeepalive(r)
            && (if WantsKeepalive(r) then Listening(l) else l.shut && l.pendingReads == 0 && l.pendingWrites == 0)
  {
    AcceptsMessages(k.parser, v.m, "");
    assert MessageText(v.m) + "" == MessageText(v.m);
    hide Feed, Step, MessageText, ValidMessage, Denote, Served, WantsKeepalive, Read, Answered, Apply, Enabled, Safe;
    var es := Arrivals(v.chunks, v.json);
    ReadRequest(k, v.chunks, v.json);
    var l := Run(k, es);
    WriteCompletes(k, l, Denote(v.m), v.json);
    RunOne(l, WriteDone);
    RunConcat(k, es, [WriteDone]);
  }

  /** How a visit ends, by the words of its first connection field and by its version: the connection
      listens again or is shut down. */
  lemma VisitEnds(k: Conn, v: Visit, i: nat)
    requires Listening(k) && ValidVisit(v) && IsFirst(v.m.fields, "connection", i)
    ensures Safe(k.parser) && CanRun(k, Script(v))
    ensures var l := Run(k, Script(v));
            var word := if i < |v.m.fields| then FieldValue(v.m.fields[i]) else "";
            var major, minor := DecimalValue(v.m.major), DecimalValue(v.m.minor);
            && (SameLetters(word, "close") ==> l.shut)
            && (SameLetters(word, "keep-alive") ==> Listening(l))
            && (!SameLetters(word, "close") && !SameLetters(word, "keep-alive") ==>
                  if major > 1 || (major == 1 && minor >= 1) then Listening(l) else l.shut)
  {
    hide ValidVisit, WantsKeepalive, Denote, Served, Script, Listening, Run, CanRun, Safe, SameLetters, DecimalValue;
    VisitIsAnswered(k, v);
    KeepaliveIsAsked(v.m, i);
    ConnectionWords();
    SameAsClose(if i < |v.m.fields| then FieldValue(v.m.fields[i]) else "");
  }

  function Messages(vs: seq<Visit>): (ms: seq<Message>)
    ensures |ms| == |vs|
  {
    seq(|vs|, i requires 0 <= i < |vs| => vs[i].m)
  }

  function Requests(ms: seq<Message>): (rs: seq<RequestValue>)
    ensures |rs| == |ms|
  {
    if ms == [] then [] else [Denote(ms[0])] + Requests(ms[1..])
  }

  function Replies(vs: seq<Visit>): (rs: seq<ReplyValue>)
    ensures |rs| == |vs|
  {
    if vs == [] then []
    else [Served(vs[0].json, WantsKeepalive(Denote(vs[0].m)))] + Replies(vs[1..])
  }

  lemma NoVisits(k: Conn)
    ensures k.handled == k.handled + Requests(Messages([])) && k.sent == k.sent + Replies([])
  {
  }

  lemma RequestsFirst(vs: seq<Visit>)
    requires vs != []
    ensures Requests(Messages(vs)) == [Denote(vs[0].m)] + Requests(Messages(vs[1..]))
  {
    hide Denote;
    assert Messages(vs)[1..] == Messages(vs[1..]);
  }

  lemma RepliesFirst(vs: seq<Visit>)
    requires vs != []
    ensures Replies(vs) == [Served(vs[0].json, WantsKeepalive(Denote(vs[0].m)))] + Replies(vs[1..])
  {
    hide Denote, Served, WantsKeepalive;
  }

  /** The first visit and the others. */
  lemma VisitsAnswered(k: Conn, vs: seq<Visit>)
    requires vs != []
    ensures var r := Denote(vs[0].m);
            && k.handled + Requests(Messages(vs)) == k.handled + [r] + Requests(Messages(vs[1..]))
            && k.sent + Replies(vs) == k.sent + [Served(vs[0].json, WantsKeepalive(r))] + Replies(vs[1..])
  {
    hide Denote, Served, WantsKeepalive, Requests, Replies, Messages;
    RequestsFirst(vs);
    RepliesFirst(vs);
  }

  lemma RunNothing(k: Conn)
    requires Listening(k)
    ensures Safe(k.parser) && CanRun(k, []) && Run(k, []) == k
  {
  }

  /** A session of requests that all want the connection kept alive: the handler gets exactly the
      requests of the session, in order, and each is answered once, whatever the cutting of the
      bytes into reads, as long as every request ends at the end of a read. */
  lemma {:induction false} SessionIsAnswered(k: Conn, vs: seq<Visit>)
    requires Listening(k)
    requires forall i | 0 <= i < |vs| :: ValidVisit(vs[i]) && WantsKeepalive(Denote(vs[i].m))
    ensures Safe(k.parser) && CanRun(k, Scripts(vs))
    ensures var l := Run(k, Scripts(vs));
            && l.handled == k.handled + Requests(Messages(vs))
            && l.sent == k.sent + Replies(vs)
            && Listening(l)
    decreases |vs|
  {
    hide ValidVisit, WantsKeepalive, Denote, Served, Script, Listening, Apply;
    hide Enabled, Safe, CanRun, Run, Requests, Replies;
    if vs == [] {
      RunNothing(k);
      NoVisits(k);
    } else {
      var v, us := vs[0], vs[1..];
      VisitIsAnswered(k, v);
      var l := Run(k, Script(v));
      SessionIsAnswered(l, us);
      RunConcat(k, Script(v), Scripts(us));
      VisitsAnswered(k, vs);
    }
  }

  lemma StartedListens(k: Conn)
    requires Started(k)
    ensures Listening(k) && k.sent == []
  {
  }

  lemma {:induction false} RepliesContents(vs: seq<Visit>)
    ensures forall i | 0 <= i < |vs| :: Replies(vs)[i].content == vs[i].json && Replies(vs)[i] != STOCK_BAD_REQUEST
    decreases |vs|
  {
    hide Decimal, WantsKeepalive, Denote;
    if vs != [] {
      RepliesContents(vs[1..]);
      forall i | 0 <= i < |vs|
        ensures Replies(vs)[i].content == vs[i].json && Replies(vs)[i] != STOCK_BAD_REQUEST
      {
        if i > 0 {
          assert Replies(vs)[i] == Replies(vs[1..])[i - 1];
        }
      }
    }
  }

  /** The HEAD requests of a session. */
  function Heads(vs: seq<Visit>): (heads: seq<bool>)
    ensures |heads| == |vs|
  {
    seq(|vs|, i requires 0 <= i < |vs| => IsHead(Denote(vs[i].m)))
  }

  predicate VisitDocuments(vs: seq<Visit>) {
    forall i | 0 <= i < |vs| :: IsDocument(vs[i].json)
  }

  lemma {:induction false} ArrivalsAreDocuments(chunks: seq<string>, json: string)
    requires IsDocument(json)
    ensures Documents(Arrivals(chunks, json))
    decreases |chunks|
  {
    if chunks != [] {
      ArrivalsAreDocuments(chunks[1..], json);
    }
  }

  lemma {:induction false} ScriptsAreDocuments(vs: seq<Visit>)
    requires VisitDocuments(vs)
    ensures Documents(Scripts(vs))
    decreases |vs|
  {
    hide IsDocument;
    if vs != [] {
      ArrivalsAreDocuments(vs[0].chunks, vs[0].json);
      assert forall i | 0 <= i < |vs| - 1 :: vs[1..][i] == vs[i + 1];
      ScriptsAreDocuments(vs[1..]);
    }
  }

  /** What the client should get in a session. */
  predicate GetsDocuments(ds: seq<Delivery>, vs: seq<Visit>) {
    && |ds| == |vs|
    && forall i | 0 <= i < |vs| :: ds[i].content == if IsHead(Denote(vs[i].m)) then "" else vs[i].json
  }

  lemma SessionIsReadable(vs: seq<Visit>)
    ensures Readable(Replies(vs), Heads(vs), false) <==>
            forall i | 0 <= i < |vs| - 1 :: IsHead(Denote(vs[i].m)) ==> vs[i].json == ""
  {
    hide Denote, WantsKeepalive, IsHead, Replies;
    RepliesContents(vs);
    assert forall i | 0 <= i < |vs| :: Passable(Replies(vs)[i], Heads(vs)[i], false) <==>
             (IsHead(Denote(vs[i].m)) ==> vs[i].json == "");
  }

  lemma SessionDeliveries(vs: seq<Visit>)
    ensures GetsDocuments(Deliveries(Replies(vs), Heads(vs)), vs)
  {
    hide Denote, WantsKeepalive, IsHead, Replies, Head;
    RepliesContents(vs);
  }

  /** The same seen from the client: the bytes that come back are one reply for each request, in
      order, and their contents are the documents of the session. With real documents this holds if
      and only if no HEAD request but the last is answered by one. */
  lemma ClientGetsAnswers(k: Conn, vs: seq<Visit>)
    requires Started(k)
    requires forall i | 0 <= i < |vs| :: ValidVisit(vs[i]) && WantsKeepalive(Denote(vs[i].m))
    ensures CanRun(k, Scripts(vs))
    ensures var l := Run(k, Scripts(vs));
            var ds := ReadReplies(l.wire, Heads(vs), false);
            var silent := forall i | 0 <= i < |vs| - 1 :: IsHead(Denote(vs[i].m)) ==> vs[i].json == "";
            && |l.sent| == |vs|
            && (silent ==> ds == Deliveries(l.sent, Heads(vs)) && GetsDocuments(ds, vs))
            && (VisitDocuments(vs) && ds == Deliveries(l.sent, Heads(vs)) ==> silent)
  {
    hide ValidVisit, WantsKeepalive, Denote, Run, CanRun, ReadReplies, Served, IsHead;
    hide Readable, VisitDocuments, Documents;
    hide Head, Requests, Replies, Scripts, Safe, Started, Listening, GetsDocuments, Framed, Deliveries;
    StartedListens(k);
    SessionIsAnswered(k, vs);
    assert [] + Replies(vs) == Replies(vs);
    EveryRunIsReadable(k, Scripts(vs), Heads(vs), false);
    if VisitDocuments(vs) {
      ScriptsAreDocuments(vs);
    }
    SessionIsReadable(vs);
    SessionDeliveries(vs);
  }

  /** Bytes that a read brings behind the end of a request are dropped: the run goes on as if they
      had never come. So a second request in the same read is never handled. */
  lemma BytesBehindARequestAreDropped(k: Conn, m: Message, extra: string, json: string)
    requires Listening(k) && ValidMessage(m)
    ensures Safe(k.parser) && Read(k, MessageText(m) + extra, json) == Read(k, MessageText(m), json)
    ensures Read(k, MessageText(m) + extra, json).handled == k.handled + [Denote(m)]
  {
    AcceptsMessages(k.parser, m, extra);
    AcceptsMessages(k.parser, m, "");
    var t := MessageText(m);
    assert t + "" == t;
    hide Feed, Step, ValidMessage, MessageText, Denote, Served, WantsKeepalive, Wire;
    FeedConcat(k.parser, t, extra);
    assert (t + extra)[..|t|] == t[..|t|] == t;
  }
}
