/** A keep-alive connection: read, parse, reply, reset (include/connection.hpp,
    src/connection.cpp).

    `Conn` is the connection as a value together with what its environment sees: the
    operations outstanding at the socket, the requests handed to the handler, the replies
    given to the socket. An operation completes by an `Event`. */
module Connection {
  import opened Text
  import opened Http
  import opened RequestParser
  import opened Completeness
  import opened ParserTheorems
  import opened Reply
  import opened Framing

  const BUFFER_SIZE := 8192

  datatype Conn = Conn(
    parser: Config,
    reply: ReplyValue,
    keepalive: bool,
    // operations that were started and have not completed
    pendingReads: nat, pendingWrites: nat,
    shut: bool,
    handled: seq<RequestValue>,
    sent: seq<ReplyValue>,
    // what the socket was asked to write
    wire: string,
    // the bytes consumed by the parser since its last reset
    since: string)

  /** `json` is what the database and the JSON library would answer to a request completed by
      this read. */
  datatype Event = ReadDone(data: string, json: string) | ReadFailed | WriteDone | WriteFailed

  predicate Enabled(k: Conn, e: Event) {
    match e
    case ReadDone(data, _) => k.pendingReads > 0 && |data| <= BUFFER_SIZE
    case ReadFailed => k.pendingReads > 0
    case WriteDone => k.pendingWrites > 0
    case WriteFailed => k.pendingWrites > 0
  }

  function StartWrite(k: Conn, reply: ReplyValue): Conn {
    k.(reply := reply, pendingWrites := k.pendingWrites + 1, sent := k.sent + [reply], wire := k.wire + Wire(reply))
  }

  function CleanReply(r: ReplyValue): ReplyValue {
    r.(headers := [], content := "")
  }

  function CleanConfig(c: Config): Config {
    c.(state := MethodStart, req := RequestValue("", "", 0, 0, [], ""))
  }

  /** What was consumed of `data` when `rest` is left. */
  function Consumed(data: string, rest: string): string {
    if |rest| <= |data| then data[..|data| - |rest|] else data
  }

  /** What `handle_read` does after the parser has returned `result`. */
  function Decide(k: Conn, result: Tribool, json: string): Conn {
    match result
    case True =>
      var keepalive := WantsKeepalive(k.parser.req);
      StartWrite(k.(keepalive := keepalive, handled := k.handled + [k.parser.req]),
                 Served(k.reply.content + json, keepalive))
    case False => StartWrite(k, STOCK_BAD_REQUEST)
    case Indeterminate => k.(pendingReads := k.pendingReads + 1)
  }

  /** `handle_read` without an error. */
  function Read(k: Conn, data: string, json: string): Conn
    requires k.pendingReads > 0 && Safe(k.parser)
  {
    var o := Feed(k.parser, data);
    Decide(k.(parser := o.config, pendingReads := k.pendingReads - 1, since := k.since + Consumed(data, o.rest)),
           o.result, json)
  }

  /** `handle_write` without an error. */
  function Written(k: Conn): Conn
    requires k.pendingWrites > 0
  {
    var l := k.(pendingWrites := k.pendingWrites - 1);
    if k.keepalive
    then l.(parser := CleanConfig(k.parser), reply := CleanReply(k.reply),
            pendingReads := k.pendingReads + 1, since := "")
    else l.(shut := true)
  }

  /** The step that a completed operation causes. An error starts nothing new. */
  function Apply(k: Conn, e: Event): (l: Conn)
    requires Safe(k.parser) && Enabled(k, e)
    ensures Safe(l.parser)
  {
    match e
    case ReadDone(data, json) => Read(k, data, json)
    case ReadFailed => k.(pendingReads := k.pendingReads - 1)
    case WriteDone => Written(k)
    case WriteFailed => k.(pendingWrites := k.pendingWrites - 1)
  }

  /** A constructed connection after `start`. */
  predicate Started(k: Conn) {
    && Fresh(k.parser) && k.reply.headers == [] && k.reply.content == ""
    && k.pendingReads == 1 && k.pendingWrites == 0 && !k.shut
    && k.handled == [] && k.sent == [] && k.wire == "" && k.since == ""
  }

  /** A run: events that complete outstanding operations. */
  predicate CanRun(k: Conn, es: seq<Event>)
    requires Safe(k.parser)
    decreases |es|
  {
    es == [] || (Enabled(k, es[0]) && CanRun(Apply(k, es[0]), es[1..]))
  }

  function Run(k: Conn, es: seq<Event>): (l: Conn)
    requires Safe(k.parser) && CanRun(k, es)
    ensures Safe(l.parser)
    decreases |es|
  {
    if es == [] then k else Run(Apply(k, es[0]), es[1..])
  }

  lemma ConsumedIs(data: string, next: nat, rest: string)
    requires next <= |data| && |rest| == |data| - next
    ensures Consumed(data, rest) == data[..next]
  {
  }

  class ConnectionObject {
    const request: Request
    const reply: Reply
    const parser: Parser
    const buffer: array<char>
    var keepalive: bool
    ghost var pendingReads: nat
    ghost var pendingWrites: nat
    var shut: bool
    ghost var handled: seq<RequestValue>
    ghost var sent: seq<ReplyValue>
    ghost var wire: string
    ghost var since: string

    ghost function View(): Conn
      reads this, request, reply, parser
    {
      Conn(parser.View(request), reply.View(), keepalive, pendingReads, pendingWrites, shut, handled, sent, wire, since)
    }

    ghost predicate Valid()
      reads this, request, parser
    {
      buffer.Length == BUFFER_SIZE && Safe(parser.View(request))
    }

    /** `keepalive` is left as it is found: the program gives it no initial value. */
    constructor ()
      ensures Valid() && fresh(request) && fresh(reply) && fresh(parser) && fresh(buffer)
      ensures pendingReads == 0 && Started(View().(pendingReads := 1)) && buffer.Length == 8192
    {
      request := new Request();
      reply := new Reply();
      parser := new Parser();
      buffer := new char[BUFFER_SIZE];
      pendingReads, pendingWrites, shut := 0, 0, false;
      handled, sent, wire, since := [], [], "", "";
    }

    method ReadMore()
      modifies this`pendingReads
      ensures pendingReads == old(pendingReads) + 1
    {
      pendingReads := pendingReads + 1;
    }

    method Start()
      requires Valid()
      modifies this`pendingReads
      ensures Valid() && View() == old(View()).(pendingReads := old(pendingReads) + 1)
    {
      ReadMore();
    }

    /** Hands the buffers of the current reply to the socket. */
    method AsyncWrite()
      modifies this`pendingWrites, this`sent, this`wire
      ensures pendingWrites == old(pendingWrites) + 1 && sent == old(sent) + [reply.View()]
      ensures wire == old(wire) + Wire(reply.View())
    {
      var buffers := reply.ToBuffers();
      pendingWrites := pendingWrites + 1;
      sent := sent + [reply.View()];
      wire := wire + Flat(buffers);
    }

    method Reset()
      requires Valid()
      modifies request, reply, parser, this`since
      ensures Valid() && since == ""
      ensures parser.View(request) == CleanConfig(old(parser.View(request)))
      ensures reply.View() == CleanReply(old(reply.View()))
    {
      request.Clear();
      reply.Clear();
      parser.Reset();
      since := "";
    }

    /** The rest of `handle_read`, after the parser has returned `result`. */
    method Proceed(result: Tribool, json: string)
      requires Valid()
      modifies this, reply
      ensures Valid() && View() == Decide(old(View()), result, json)
    {
      hide Wire, Served, WantsKeepalive, Safe;
      if result == True {
        keepalive := request.WantKeepalive();
        handled := handled + [request.View()];
        var target := HandleRequest(request.uri, reply, keepalive, json);
        AsyncWrite();
      } else if result == False {
        reply.AssignStock(BadRequest);
        AsyncWrite();
      } else {
        ReadMore();
      }
    }

    /** `n` bytes have arrived in the buffer. */
    method HandleRead(error: bool, n: nat, json: string)
      requires Valid() && pendingReads > 0 && n <= BUFFER_SIZE
      modifies this, request, reply, parser
      ensures Valid()
      ensures View() == Apply(old(View()), if error then ReadFailed else ReadDone(old(buffer[..n]), json))
    {
      hide Feed, Step, Safe, Consumed, Decide;
      ghost var before := View();
      ghost var data := buffer[..n];
      pendingReads := pendingReads - 1;
      if error {
        return;
      }
      var result, next := parser.Parse(request, buffer, 0, n);
      ghost var o := Feed(before.parser, data);
      assert buffer[0..n] == data && |o.rest| == n - next;
      ConsumedIs(data, next, o.rest);
      since := since + data[..next];
      Proceed(result, json);
    }

    method HandleWrite(error: bool)
      requires Valid() && pendingWrites > 0
      modifies this, request, reply, parser
      ensures Valid()
      ensures View() == Apply(old(View()), if error then WriteFailed else WriteDone)
    {
      hide Read, Safe, Fresh;
      pendingWrites := pendingWrites - 1;
      if error {
        return;
      }
      if keepalive {
        Reset();
        ReadMore();
      } else {
        shut := true;
      }
    }
  }

  /** The parser has read `s` from a fresh state and wants more. */
  ghost predicate Awaits(c: Config, s: string) {
    exists c0 :: Fresh(c0) && Feed(c0, s) == Outcome(c, Indeterminate, "")
  }

  function Accepted(rs: seq<ReplyValue>): seq<ReplyValue> {
    if rs == [] then []
    else if rs[|rs| - 1] == STOCK_BAD_REQUEST then Accepted(rs[..|rs| - 1])
    else Accepted(rs[..|rs| - 1]) + [rs[|rs| - 1]]
  }

  predicate Answers(r: RequestValue, reply: ReplyValue) {
    WellFormed(r) && reply == Served(reply.content, WantsKeepalive(r))
  }

  /** What holds throughout every run that began with the keep-alive flag `initial`. */
  ghost predicate Invariant(k: Conn, initial: bool) {
    && Safe(k.parser)
    // at most one operation is outstanding, and none after a shutdown
    && k.pendingReads + k.pendingWrites <= 1 && (k.shut ==> k.pendingReads + k.pendingWrites == 0)
    // bytes are only awaited by a parser that started afresh, with a clean reply
    && (k.pendingReads == 1 ==> Awaits(k.parser, k.since) && k.reply.headers == [] && k.reply.content == "")
    // the reply that is being written has not changed since the write was started
    && (k.pendingWrites == 1 ==> k.sent != [] && k.reply == k.sent[|k.sent| - 1])
    // one reply for each handled request, in order, apart from the refusals
    && |Accepted(k.sent)| == |k.handled|
    && (forall i | 0 <= i < |k.handled| :: Answers(k.handled[i], Accepted(k.sent)[i]))
    && (forall r | r in k.sent :: Sendable(r))
    && k.wire == Stream(k.sent)
    // the flag is that of the last good request, or what it happened to be initially
    && k.keepalive == (if k.handled == [] then initial else WantsKeepalive(k.handled[|k.handled| - 1]))
  }

  lemma AcceptedPush(rs: seq<ReplyValue>, r: ReplyValue)
    ensures Accepted(rs + [r]) == if r == STOCK_BAD_REQUEST then Accepted(rs) else Accepted(rs) + [r]
  {
    assert (rs + [r])[..|rs|] == rs;
  }

  lemma {:induction false} StreamPush(rs: seq<ReplyValue>, r: ReplyValue)
    ensures Stream(rs + [r]) == Stream(rs) + Wire(r)
  {
    hide Wire;
    if rs == [] {
      assert rs + [r] == [r] && [r][1..] == [];
      assert Wire(r) + "" == Wire(r);
    } else {
      assert (rs + [r])[1..] == rs[1..] + [r];
      StreamPush(rs[1..], r);
    }
  }

  lemma FeedOnward(c0: Config, s: string, c: Config, data: string)
    requires Fresh(c0) && Feed(c0, s) == Outcome(c, Indeterminate, "")
    ensures Safe(c) && Feed(c0, s + data) == Feed(c, data)
  {
    hide Feed, Step;
    FeedConcat(c0, s, data);
  }

  /** The bytes since the reset, with those of this read, in a fresh parser. */
  lemma ReadFromFresh(k: Conn, data: string) returns (c0: Config)
    requires Safe(k.parser) && Awaits(k.parser, k.since)
    ensures Fresh(c0) && Safe(c0) && Feed(c0, k.since + data) == Feed(k.parser, data)
  {
    hide Feed, Step;
    c0 :| Fresh(c0) && Feed(c0, k.since) == Outcome(k.parser, Indeterminate, "");
    FeedOnward(c0, k.since, k.parser, data);
  }

  lemma ServedIsSendable(content: string, keepalive: bool)
    ensures Sendable(Served(content, keepalive)) && Served(content, keepalive) != STOCK_BAD_REQUEST
    ensures Served(content, keepalive).content == content
  {
    hide Decimal;
  }

  lemma AnswerKeepsInvariant(k: Conn, r: RequestValue, reply: ReplyValue)
    requires WellFormed(r) && reply == Served(reply.content, WantsKeepalive(r))
    ensures Stream(k.sent + [reply]) == Stream(k.sent) + Wire(reply)
    ensures Accepted(k.sent + [reply]) == Accepted(k.sent) + [reply]
    ensures Sendable(reply) && Answers(r, reply)
  {
    hide Wire, Stream, Served, Accepted, WantsKeepalive, WellFormed, Sendable;
    ServedIsSendable(reply.content, WantsKeepalive(r));
    AcceptedPush(k.sent, reply);
    StreamPush(k.sent, reply);
  }

  lemma GoodReadKeepsInvariant(k: Conn, data: string, json: string, initial: bool)
    requires Invariant(k, initial) && k.pendingReads > 0 && Feed(k.parser, data).result == True
    ensures Invariant(Read(k, data, json), initial)
  {
    hide Feed, Step, Wire, Stream, Served, Accepted, WantsKeepalive, WellFormed, Sendable, Consumed, Awaits, Fresh;
    var r := Feed(k.parser, data).config.req;
    var c0 := ReadFromFresh(k, data);
    ParsedIsWellFormed(c0, r);
    assert Feed(c0, k.since + data).result == True;
    var reply := Served(k.reply.content + json, WantsKeepalive(r));
    ServedIsSendable(k.reply.content + json, WantsKeepalive(r));
    AnswerKeepsInvariant(k, r, reply);
  }

  lemma StockIsSendable()
    ensures Sendable(STOCK_BAD_REQUEST)
  {
  }

  lemma BadReadKeepsInvariant(k: Conn, data: string, json: string, initial: bool)
    requires Invariant(k, initial) && k.pendingReads > 0 && Feed(k.parser, data).result == False
    ensures Invariant(Read(k, data, json), initial)
  {
    hide Feed, Step, Wire, Stream, Served, Accepted, WantsKeepalive, Answers, Sendable, Consumed, Awaits;
    AcceptedPush(k.sent, STOCK_BAD_REQUEST);
    StreamPush(k.sent, STOCK_BAD_REQUEST);
    StockIsSendable();
  }

  lemma PartialReadKeepsInvariant(k: Conn, data: string, json: string, initial: bool)
    requires Invariant(k, initial) && k.pendingReads > 0 && Feed(k.parser, data).result == Indeterminate
    ensures Invariant(Read(k, data, json), initial)
  {
    hide Feed, Step, Stream, Accepted, WantsKeepalive, Answers, Sendable, Consumed;
    var c0 := ReadFromFresh(k, data);
    FeedRest(k.parser, data);
    ConsumedIs(data, |data|, "");
    assert data[..|data|] == data;
    assert Awaits(Feed(k.parser, data).config, k.since + data);
  }

  lemma InvariantIsSafe(k: Conn, initial: bool)
    requires Invariant(k, initial)
    ensures Safe(k.parser)
  {
  }

  lemma ReadKeepsInvariant(k: Conn, data: string, json: string, initial: bool)
    requires Invariant(k, initial) && k.pendingReads > 0
    ensures Invariant(Read(k, data, json), initial)
  {
    hide Feed, Step, Invariant, Read;
    InvariantIsSafe(k, initial);
    match Feed(k.parser, data).result
    case True => GoodReadKeepsInvariant(k, data, json, initial);
    case False => BadReadKeepsInvariant(k, data, json, initial);
    case Indeterminate => PartialReadKeepsInvariant(k, data, json, initial);
  }

  lemma WrittenKeepsInvariant(k: Conn, initial: bool)
    requires Invariant(k, initial) && k.pendingWrites > 0
    ensures Invariant(Written(k), initial)
  {
    hide Step, Stream, Accepted, WantsKeepalive, WellFormed, Sendable, Answers;
    var c := CleanConfig(k.parser);
    assert Fresh(c) && Feed(c, "") == Outcome(c, Indeterminate, "");
    assert Awaits(c, "");
  }

  lemma FailureKeepsInvariant(k: Conn, initial: bool)
    requires Invariant(k, initial)
    ensures k.pendingReads > 0 ==> Invariant(k.(pendingReads := k.pendingReads - 1), initial)
    ensures k.pendingWrites > 0 ==> Invariant(k.(pendingWrites := k.pendingWrites - 1), initial)
  {
    hide Awaits, Stream, Accepted, WantsKeepalive, Sendable, Answers, Safe;
  }

  lemma StepKeepsInvariant(k: Conn, e: Event, initial: bool)
    requires Invariant(k, initial) && Enabled(k, e)
    ensures Safe(k.parser) && Invariant(Apply(k, e), initial)
  {
    InvariantIsSafe(k, initial);
    hide Invariant, Read, Written, Safe;
    match e
    case ReadDone(data, json) => ReadKeepsInvariant(k, data, json, initial);
    case WriteDone => WrittenKeepsInvariant(k, initial);
    case _ => FailureKeepsInvariant(k, initial);
  }

  lemma StartedInvariant(k: Conn)
    requires Started(k)
    ensures Invariant(k, k.keepalive)
  {
    assert Feed(k.parser, "") == Outcome(k.parser, Indeterminate, "");
    assert Awaits(k.parser, "");
  }

  lemma {:induction false} RunKeepsInvariant(k: Conn, es: seq<Event>, initial: bool)
    requires Invariant(k, initial) && CanRun(k, es)
    ensures Invariant(Run(k, es), initial)
    decreases |es|
  {
    hide Invariant, Apply, Enabled;
    assert Safe(k.parser) by { InvariantIsSafe(k, initial); }
    if es != [] {
      StepKeepsInvariant(k, es[0], initial);
      RunKeepsInvariant(Apply(k, es[0]), es[1..], initial);
    }
  }

  /** The invariant holds after every run of a connection. */
  lemma EveryRun(k: Conn, es: seq<Event>)
    requires Started(k) && CanRun(k, es)
    ensures Invariant(Run(k, es), k.keepalive)
  {
    StartedInvariant(k);
    RunKeepsInvariant(k, es, k.keepalive);
  }

  lemma InvariantStream(l: Conn, initial: bool)
    requires Invariant(l, initial)
    ensures l.wire == Stream(l.sent) && forall r | r in l.sent :: Sendable(r)
  {
    hide Stream, Sendable, Awaits, Accepted, Answers, WantsKeepalive;
  }

  /** The answers of the JSON library are documents. */
  predicate Documents(es: seq<Event>) {
    forall i | 0 <= i < |es| && es[i].ReadDone? :: IsDocument(es[i].json)
  }

  predicate SentDocuments(rs: seq<ReplyValue>) {
    forall i | 0 <= i < |rs| :: IsDocument(rs[i].content)
  }

  lemma NothingIsDocument()
    ensures IsDocument("")
  {
  }

  lemma StepSendsDocuments(k: Conn, e: Event, initial: bool)
    requires Invariant(k, initial) && Safe(k.parser) && Enabled(k, e) && SentDocuments(k.sent)
    requires e.ReadDone? ==> IsDocument(e.json)
    ensures SentDocuments(Apply(k, e).sent)
  {
    hide Feed, Step, Wire, Stream, Awaits, Accepted, Answers, Sendable, WantsKeepalive, Consumed, IsDocument, Safe;
    hide ReplyHeaders;
    if e.ReadDone? {
      assert "" + e.json == e.json;
      assert IsDocument("") by { NothingIsDocument(); }
    }
  }

  lemma {:induction false} RunSendsDocuments(k: Conn, es: seq<Event>, initial: bool)
    requires Invariant(k, initial) && Safe(k.parser) && CanRun(k, es) && SentDocuments(k.sent) && Documents(es)
    ensures SentDocuments(Run(k, es).sent)
    decreases |es|
  {
    hide Invariant, Apply, Enabled, SentDocuments, Safe, IsDocument;
    if es != [] {
      StepKeepsInvariant(k, es[0], initial);
      StepSendsDocuments(k, es[0], initial);
      assert Documents(es[1..]) by {
        assert forall i | 0 <= i < |es| - 1 :: es[1..][i] == es[i + 1];
      }
      RunSendsDocuments(Apply(k, es[0]), es[1..], initial);
    }
  }

  /** In every run, exactly the refusals do not announce their length. A client that expects the
      replies, some of them to HEAD requests, recovers them if and only if all before the last are
      passable: no refusal, and no content to a HEAD request. */
  lemma EveryRunIsReadable(k: Conn, es: seq<Event>, heads: seq<bool>, lenient: bool)
    requires Started(k) && CanRun(k, es) && |heads| == |Run(k, es).sent|
    ensures var l := Run(k, es);
            forall i | 0 <= i < |l.sent| :: Framed(l.sent[i]) <==> l.sent[i] != STOCK_BAD_REQUEST
    ensures var l := Run(k, es);
            && (Readable(l.sent, heads, lenient) ==> ReadReplies(l.wire, heads, lenient) == Deliveries(l.sent, heads))
            && (Documents(es) && ReadReplies(l.wire, heads, lenient) == Deliveries(l.sent, heads) ==>
                  Readable(l.sent, heads, lenient))
  {
    hide Run, CanRun, Invariant, Stream, Sendable, ReadReplies, Deliveries, Framed, Readable, Documents, IsDocument;
    EveryRun(k, es);
    var l := Run(k, es);
    InvariantStream(l, k.keepalive);
    if Readable(l.sent, heads, lenient) {
      RepliesRoundTrip(l.sent, heads, lenient);
    } else if Documents(es) {
      StartedInvariant(k);
      RunSendsDocuments(k, es, k.keepalive);
      assert forall r | r in l.sent :: IsDocument(r.content);
      RepliesRecovered(l.sent, heads, lenient);
    }
    forall i | 0 <= i < |l.sent|
      ensures Framed(l.sent[i]) <==> l.sent[i] != STOCK_BAD_REQUEST
    {
      assert l.sent[i] in l.sent;
      FramedUnlessRefusal(l.sent[i]);
    }
  }

  lemma InvariantAwaits(l: Conn, initial: bool)
    requires Invariant(l, initial) && l.pendingReads > 0
    ensures Awaits(l.parser, l.since)
  {
    hide Awaits, Safe, Stream, Accepted, Answers, Sendable, WantsKeepalive;
  }

  /** When a read is outstanding, the parser is consistent and nothing of an earlier request can
      matter: the next result is that of any fresh parser on the bytes since the reset. */
  lemma ReadsAreFresh(k: Conn, es: seq<Event>, c: Config, data: string)
    requires Started(k) && CanRun(k, es) && Run(k, es).pendingReads > 0 && Fresh(c)
    ensures var l := Run(k, es);
            && Consistent(l.parser)
            && Feed(l.parser, data).result == Feed(c, l.since + data).result
            && Feed(l.parser, data).rest == Feed(c, l.since + data).rest
            && (Feed(l.parser, data).result == True ==>
                  Feed(l.parser, data).config.req == Feed(c, l.since + data).config.req)
  {
    hide Run, CanRun, Feed, Step, Consistent, Invariant;
    EveryRun(k, es);
    var l := Run(k, es);
    InvariantAwaits(l, k.keepalive);
    var c0 :| Fresh(c0) && Feed(c0, l.since) == Outcome(l.parser, Indeterminate, "");
    ReachableIsConsistent(c0, l.since);
    FeedOnward(c0, l.since, l.parser, data);
    FreshAreAlike(c0, c);
    LeftoversDoNotMatter(c0, c, l.since + data);
  }

  /** A completed write leads either to a reset and a new read or to the shutdown. */
  lemma WriteLeadsOn(k: Conn, es: seq<Event>)
    requires Started(k) && CanRun(k, es) && Run(k, es).pendingWrites > 0
    ensures var l := Run(k, es);
            var m := Apply(l, WriteDone);
            && m.pendingWrites == 0
            && (if l.keepalive then Fresh(m.parser) && m.pendingReads == 1 && !m.shut && m.reply.content == ""
                else m.pendingReads == 0 && m.shut)
  {
    EveryRun(k, es);
  }

  /** The last answer was made for the flag that holds. */
  lemma LastAnswer(l: Conn, initial: bool)
    requires Invariant(l, initial) && l.pendingWrites > 0
    requires l.sent != [] && l.sent[|l.sent| - 1] != STOCK_BAD_REQUEST
    ensures l.pendingReads == 0 && l.pendingWrites == 1 && !l.shut
    ensures l.sent[|l.sent| - 1] == Served(l.sent[|l.sent| - 1].content, l.keepalive)
  {
    hide Awaits, Stream, Sendable, WantsKeepalive, WellFormed, Served, Safe;
    var n := |l.handled| - 1;
    assert Accepted(l.sent)[n] == l.sent[|l.sent| - 1];
    assert Answers(l.handled[n], Accepted(l.sent)[n]);
  }

  /** The answer tells what follows: behind an answer with the line `Connection: close` the connection
      is shut down, behind one with `Connection: Keep-Alive` the next read is started. */
  lemma ReplyTellsWhatFollows(k: Conn, es: seq<Event>)
    requires Started(k) && CanRun(k, es) && Run(k, es).pendingWrites > 0
    requires var sent := Run(k, es).sent; sent != [] && sent[|sent| - 1] != STOCK_BAD_REQUEST
    ensures var l := Run(k, es);
            var head := Head(l.sent[|l.sent| - 1]);
            var m := Apply(l, WriteDone);
            && (m.shut <==> EndsWith(head, "\r\nConnection: close\r\n\r\n"))
            && (m.pendingReads == 1 <==> EndsWith(head, "\r\nConnection: Keep-Alive\r\n\r\n"))
  {
    hide Run, CanRun, Invariant, Head, EndsWith, Served;
    EveryRun(k, es);
    var l := Run(k, es);
    LastAnswer(l, k.keepalive);
    LastHeader(l.sent[|l.sent| - 1].content, l.keepalive);
  }
}
