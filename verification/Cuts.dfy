/** What a connection handles, in terms of the bytes that its reads bring and of how they are cut.

    `Handled` follows the parser from read to read. It turns out that a session of valid requests is
    handled as it was meant if and only if each request ends at the end of a read. */
module Cuts {
  import opened Text
  import opened Http
  import opened RequestParser
  import opened Grammar
  import opened Completeness
  import opened Soundness
  import opened ParserTheorems
  import opened Ahead
  import opened Reply
  import opened Framing
  import opened Connection
  import opened Sessions

  const NEW := Config(MethodStart, 0, RequestValue("", "", 0, 0, [], ""))

  /** The requests found in the reads `chunks`, when the parser has read `p` since its reset and
      the keep-alive flag is `keep`. */
  function Handled(p: string, keep: bool, chunks: seq<string>): seq<RequestValue>
    decreases |chunks|
  {
    if chunks == [] then []
    else
      var o := Feed(NEW, p + chunks[0]);
      match o.result
      case Indeterminate => Handled(p + chunks[0], keep, chunks[1..])
      case True => [o.config.req] + if WantsKeepalive(o.config.req) then Handled("", true, chunks[1..]) else []
      case False => if keep then Handled("", true, chunks[1..]) else []
  }

  /** The bytes of the reads of a run. */
  function Reads(es: seq<Event>): seq<string> {
    if es == [] then []
    else (if es[0].ReadDone? then [es[0].data] else []) + Reads(es[1..])
  }

  predicate NoFailures(es: seq<Event>) {
    forall i | 0 <= i < |es| :: es[i].ReadDone? || es[i].WriteDone?
  }

  /** What the reads `chunks` would still bring. */
  function Coming(k: Conn, chunks: seq<string>): seq<RequestValue> {
    if k.pendingReads > 0 then Handled(k.since, k.keepalive, chunks)
    else if k.pendingWrites > 0 && k.keepalive then Handled("", true, chunks)
    else []
  }

  /** A waiting parser decides as a new one on all bytes since the reset. */
  lemma ReadAsNew(k: Conn, data: string)
    requires Safe(k.parser) && Awaits(k.parser, k.since)
    ensures var o, q := Feed(k.parser, data), Feed(NEW, k.since + data);
            o.result == q.result && (o.result == True ==> o.config.req == q.config.req)
  {
    hide Feed, Step;
    var c0 := ReadFromFresh(k, data);
    FreshAreAlike(c0, NEW);
    LeftoversDoNotMatter(c0, NEW, k.since + data);
  }

  lemma HandledNext(p: string, keep: bool, data: string, chunks: seq<string>)
    ensures var o := Feed(NEW, p + data);
            Handled(p, keep, [data] + chunks) ==
              if o.result == Indeterminate then Handled(p + data, keep, chunks)
              else if o.result == False then (if keep then Handled("", true, chunks) else [])
              else [o.config.req] + if WantsKeepalive(o.config.req) then Handled("", true, chunks) else []
  {
    hide Feed, Step, WantsKeepalive;
    assert ([data] + chunks)[1..] == chunks && ([data] + chunks)[0] == data;
  }

  lemma ReadBringsNext(k: Conn, data: string, json: string, chunks: seq<string>)
    requires Safe(k.parser) && Awaits(k.parser, k.since) && k.pendingWrites == 0 && k.pendingReads == 1
    ensures var l := Read(k, data, json);
            k.handled + Coming(k, [data] + chunks) == l.handled + Coming(l, chunks)
  {
    hide Feed, Step, Awaits, WantsKeepalive, Handled, Wire, Served, Safe, Consumed;
    ReadAsNew(k, data);
    FeedRest(k.parser, data);
    HandledNext(k.since, k.keepalive, data, chunks);
    ConsumedIs(data, |data|, "");
    assert data[..|data|] == data;
  }

  lemma NothingComes(k: Conn)
    ensures Coming(k, []) == []
  {
  }

  /** Every event keeps what has been handled together with what is coming. */
  lemma StepBringsNext(k: Conn, e: Event, chunks: seq<string>, initial: bool)
    requires Invariant(k, initial) && Safe(k.parser) && Enabled(k, e)
    requires chunks == [] || e.ReadDone? || e.WriteDone?
    ensures var l := Apply(k, e);
            k.handled + Coming(k, Reads([e]) + chunks) == l.handled + Coming(l, chunks)
  {
    hide Awaits, Handled, Stream, Accepted, Answers, Sendable, WantsKeepalive, Read, Feed, Safe;
    match e
    case ReadDone(data, json) =>
      ReadBringsNext(k, data, json, chunks);
      assert [e][1..] == [] && Reads([e]) == [data];
    case WriteDone => assert Reads([e]) + chunks == chunks;
    case _ =>
      NothingComes(k);
      NothingComes(Apply(k, e));
      assert Reads([e]) + chunks == [];
  }

  lemma ReadsFirst(es: seq<Event>)
    requires es != []
    ensures Reads(es) == Reads([es[0]]) + Reads(es[1..])
  {
    assert [es[0]][1..] == [];
  }

  lemma EndsByFailure(k: Conn, e: Event, es: seq<Event>, initial: bool)
    requires Invariant(k, initial) && Safe(k.parser) && Enabled(k, e) && !e.ReadDone? && !e.WriteDone?
    requires CanRun(Apply(k, e), es)
    ensures es == []
  {
    hide Awaits, Stream, Accepted, Answers, Sendable, WantsKeepalive, Safe;
  }

  lemma {:induction false} RunBringsAll(k: Conn, es: seq<Event>, chunks: seq<string>, initial: bool)
    requires Invariant(k, initial) && Safe(k.parser) && CanRun(k, es) && (chunks == [] || NoFailures(es))
    ensures var l := Run(k, es);
            k.handled + Coming(k, Reads(es) + chunks) == l.handled + Coming(l, chunks)
    decreases |es|
  {
    hide Invariant, Apply, Enabled, Coming, Safe;
    if es == [] {
      assert Reads(es) + chunks == chunks;
    } else {
      var e, more := es[0], es[1..];
      var l := Apply(k, e);
      StepKeepsInvariant(k, e, initial);
      if !e.ReadDone? && !e.WriteDone? {
        EndsByFailure(k, e, more, initial);
      }
      StepBringsNext(k, e, Reads(more) + chunks, initial);
      RunBringsAll(l, more, chunks, initial);
      assert Reads([e]) + (Reads(more) + chunks) == Reads(es) + chunks by { ReadsFirst(es); }
    }
  }

  lemma ComesToListener(k: Conn, chunks: seq<string>)
    requires Listening(k)
    ensures Coming(k, chunks) == Handled("", k.keepalive, chunks)
  {
    hide Handled;
  }

  /** In every run, on any bytes: the handled requests are those that the bytes of the reads hold. */
  lemma EveryRunHandles(k: Conn, es: seq<Event>)
    requires Started(k) && CanRun(k, es)
    ensures Run(k, es).handled == Handled("", k.keepalive, Reads(es))
  {
    hide Invariant, Run, CanRun, Handled, Coming, Fresh, Safe, Listening;
    StartedInvariant(k);
    StartedListens(k);
    RunBringsAll(k, es, [], k.keepalive);
    NothingComes(Run(k, es));
    ComesToListener(k, Reads(es));
    assert Reads(es) + [] == Reads(es);
    assert [] + Handled("", k.keepalive, Reads(es)) == Handled("", k.keepalive, Reads(es));
  }

  lemma SkipMore(s: string, flat: string, skipped: string, t: string, dropped: string, tail: string)
    requires "" + flat == skipped + t + dropped + tail
    ensures s + flat == (s + skipped) + t + dropped + tail
  {
    assert "" + flat == flat;
    assert (s + skipped) + t + dropped + tail == s + (skipped + t + dropped + tail);
  }

  /** The part of an accepted input that is consumed is accepted by itself. */
  lemma ConsumedPart(s: string) returns (t: string, rest: string)
    requires Feed(NEW, s).result == True
    ensures s == t + rest && Feed(NEW, t).result == True && Feed(NEW, t).rest == ""
    ensures Feed(NEW, t).config.req == Feed(NEW, s).config.req
  {
    hide Feed, Step, ValidMessage, MessageText, Denote;
    var m := AcceptsOnlyMessages(NEW, s);
    t, rest := MessageText(m), Feed(NEW, s).rest;
    AcceptsMessages(NEW, m, "");
    assert t + "" == t;
  }

  /** Where the first handled request comes from: the text `t` of a message, behind `skipped`
      bytes. The next request is sought in the reads from `i` on, so `dropped` is lost. */
  lemma {:induction false} FirstHandled(p: string, keep: bool, chunks: seq<string>)
    returns (skipped: string, t: string, dropped: string, i: nat)
    requires Handled(p, keep, chunks) != []
    ensures 0 < i <= |chunks| && p + Flat(chunks) == skipped + t + dropped + Flat(chunks[i..])
    ensures Feed(NEW, t).result == True && Feed(NEW, t).rest == ""
    ensures var r := Feed(NEW, t).config.req;
            Handled(p, keep, chunks) == [r] + if WantsKeepalive(r) then Handled("", true, chunks[i..]) else []
    decreases |chunks|
  {
    hide Feed, Step, WantsKeepalive;
    var s, more := p + chunks[0], chunks[1..];
    assert p + Flat(chunks) == s + Flat(more);
    var o := Feed(NEW, s);
    if o.result == True {
      t, dropped := ConsumedPart(s);
      skipped, i := "", 1;
      assert "" + t + dropped == s;
    } else if o.result == Indeterminate {
      skipped, t, dropped, i := FirstHandled(s, keep, more);
      i := i + 1;
      assert chunks[i..] == more[i - 1..];
    } else {
      skipped, t, dropped, i := FirstHandled("", true, more);
      hide Handled, Flat;
      SkipMore(s, Flat(more), skipped, t, dropped, Flat(more[i..]));
      skipped, i := s + skipped, i + 1;
      assert chunks[i..] == more[i - 1..];
    }
  }

  function Texts(ms: seq<Message>): string {
    if ms == [] then "" else MessageText(ms[0]) + Texts(ms[1..])
  }

  predicate Session(ms: seq<Message>) {
    forall i | 0 <= i < |ms| :: ValidMessage(ms[i]) && WantsKeepalive(Denote(ms[i]))
  }

  /** A message that denotes what `m` does and begins behind the start of `m` ends behind it. */
  lemma FirstBegins(m: Message, before: string, t: string, after: string, more: string)
    requires ValidMessage(m) && before + t + after == MessageText(m) + more
    requires Feed(NEW, t).result == True && Feed(NEW, t).config.req == Denote(m) && before != ""
    ensures |before + t| > |MessageText(m)|
  {
    hide Feed, Step, ValidMessage, MessageText, Denote;
    if |before + t| <= |MessageText(m)| {
      var z := MessageText(m)[|before + t|..];
      assert MessageText(m) == (before + t + after)[..|MessageText(m)|];
      assert MessageText(m) == before + t + z;
      InsideDiffers(m, before, t, z, NEW);
    }
  }

  /** Of two ways to cut a text, where the second cut comes first: what lies between the cuts. */
  lemma Cut(a: string, b: string, c: string, d: string) returns (between: string)
    requires a + b == c + d && |a| >= |c|
    ensures |between| == |a| - |c| && between + b == d && a == c + between
  {
    between := a[|c|..];
    assert (a + b)[..|c|] == (c + d)[..|c|] == c;
    assert (a + b)[|c|..] == between + b && (c + d)[|c|..] == d;
  }

  lemma TextsOfFirst(ms: seq<Message>)
    requires ms != []
    ensures Texts(ms) == MessageText(ms[0]) + Texts(ms[1..])
  {
  }

  lemma Regroup(before: string, t: string, dropped: string, flat: string, all: string)
    requires before + t + dropped + flat == all
    ensures before + t + (dropped + flat) == all
  {
  }

  /** What is lost of the texts behind `m`, when the request of `m` is found behind lost bytes. */
  lemma LostBehind(m: Message, lost: string, flat: string, skipped: string, t: string, dropped: string, tail: string,
                   texts: string)
    returns (more: string)
    requires ValidMessage(m) && Feed(NEW, t).result == True && Feed(NEW, t).config.req == Denote(m)
    requires "" + flat == skipped + t + dropped + tail && lost != "" && lost + flat == MessageText(m) + texts
    ensures more != "" && more + tail == texts
  {
    hide *;
    SkipMore(lost, flat, skipped, t, dropped, tail);
    var before := lost + skipped;
    Regroup(before, t, dropped, tail, MessageText(m) + texts);
    FirstBegins(m, before, t, dropped + tail, texts);
    more := Cut(before + t + dropped, tail, MessageText(m), texts);
  }

  /** Once the first byte of a session is lost, its requests are not handled. */
  lemma {:induction false} LateIsLost(ms: seq<Message>, keep: bool, chunks: seq<string>, lost: string)
    requires Session(ms) && lost != "" && lost + Flat(chunks) == Texts(ms)
    ensures Handled("", keep, chunks) != Requests(ms)
    decreases |ms|
  {
    if Handled("", keep, chunks) == Requests(ms) {
      assert ms != [];
      hide Feed, ValidMessage, MessageText, Denote, WantsKeepalive, Handled, Flat, Texts;
      TextsOfFirst(ms);
      var m, us := ms[0], ms[1..];
      assert Session(us) && ValidMessage(m) && WantsKeepalive(Denote(m));
      hide Session;
      var skipped, t, dropped, i := FirstHandled("", keep, chunks);
      assert Requests(ms)[1..] == Requests(us);
      hide Requests;
      var more := LostBehind(m, lost, Flat(chunks), skipped, t, dropped, Flat(chunks[i..]), Texts(us));
      LateIsLost(us, true, chunks[i..], more);
    }
  }

  /** `n` bytes end at the end of a read. */
  predicate IsCut(chunks: seq<string>, n: nat) {
    exists i :: 0 <= i <= |chunks| && |Flat(chunks[..i])| == n
  }

  /** Every message ends at the end of a read. */
  predicate EndsAtCuts(ms: seq<Message>, chunks: seq<string>) {
    forall j | 0 <= j <= |ms| :: IsCut(chunks, |Texts(ms[..j])|)
  }

  predicate Filled(chunks: seq<string>) {
    forall i | 0 <= i < |chunks| :: chunks[i] != ""
  }

  lemma FlatBetween(chunks: seq<string>, i: nat, q: nat)
    requires i <= q <= |chunks|
    ensures Flat(chunks[..q]) == Flat(chunks[..i]) + Flat(chunks[i..][..q - i])
    ensures Filled(chunks) && i < q ==> Flat(chunks[i..][..q - i]) != ""
  {
    assert chunks[..q] == chunks[..i] + chunks[i..][..q - i];
    FlatConcat(chunks[..i], chunks[i..][..q - i]);
    assert i < q ==> chunks[i..][..q - i][0] == chunks[i];
  }

  lemma TextsFirst(ms: seq<Message>, j: nat)
    requires ms != [] && j < |ms|
    ensures Texts(ms[..j + 1]) == MessageText(ms[0]) + Texts(ms[1..][..j])
  {
    hide MessageText;
    assert ms[..j + 1][1..] == ms[1..][..j] && ms[..j + 1][0] == ms[0];
  }

  lemma StartIsCut(ms: seq<Message>, chunks: seq<string>)
    ensures IsCut(chunks, |Texts(ms[..0])|)
  {
    assert |Flat(chunks[..0])| == 0;
  }

  /** When the first message ends with the read before `i`: the cuts of the other messages. */
  lemma CutsBehind(ms: seq<Message>, chunks: seq<string>, i: nat)
    requires ms != [] && i <= |chunks| && Filled(chunks) && Flat(chunks[..i]) == MessageText(ms[0])
    ensures EndsAtCuts(ms, chunks) <==> EndsAtCuts(ms[1..], chunks[i..])
  {
    hide Flat, MessageText, Texts, Filled;
    var us, tail := ms[1..], chunks[i..];
    if EndsAtCuts(ms, chunks) {
      forall j | 0 <= j <= |us|
        ensures IsCut(tail, |Texts(us[..j])|)
      {
        TextsFirst(ms, j);
        assert IsCut(chunks, |Texts(ms[..j + 1])|);
        var q :| 0 <= q <= |chunks| && |Flat(chunks[..q])| == |Texts(ms[..j + 1])|;
        if q < i {
          FlatBetween(chunks, q, i);
        } else {
          FlatBetween(chunks, i, q);
          assert |Flat(tail[..q - i])| == |Texts(us[..j])|;
        }
      }
    }
    if EndsAtCuts(us, tail) {
      forall j | 0 <= j <= |ms|
        ensures IsCut(chunks, |Texts(ms[..j])|)
      {
        if j == 0 {
          StartIsCut(ms, chunks);
        } else {
          TextsFirst(ms, j - 1);
          assert IsCut(tail, |Texts(us[..j - 1])|);
          var q :| 0 <= q <= |tail| && |Flat(tail[..q])| == |Texts(us[..j - 1])|;
          FlatBetween(chunks, i, i + q);
          assert |Flat(chunks[..i + q])| == |Texts(ms[..j])|;
        }
      }
    }
  }

  /** Reads that bring exactly what is missing of a message. */
  lemma {:induction false} HandledOne(p: string, keep: bool, part: seq<string>, chunks: seq<string>, m: Message)
    requires ValidMessage(m) && WantsKeepalive(Denote(m)) && p + Flat(part) == MessageText(m)
    requires part != [] && Filled(part)
    ensures Handled(p, keep, part + chunks) == [Denote(m)] + Handled("", true, chunks)
    decreases |part|
  {
    hide Feed, Step, ValidMessage, MessageText, Denote, WantsKeepalive, Handled;
    var s, more := p + part[0], part[1..];
    assert s + Flat(more) == MessageText(m) + "";
    AcceptsMessages(NEW, m, "");
    FeedConcat(NEW, s, Flat(more));
    assert part + chunks == [part[0]] + (more + chunks);
    HandledNext(p, keep, part[0], more + chunks);
    if more == [] {
      assert Flat(more) == "" && s + "" == s && MessageText(m) + "" == MessageText(m);
      assert more + chunks == chunks;
    } else {
      assert Flat(more) != "" && Feed(NEW, s).result == Indeterminate;
      HandledOne(s, keep, more, chunks, m);
    }
  }

  /** A message text that begins where `m` does ends where `m` does. */
  lemma EndsTogether(m: Message, t: string, after: string, more: string)
    requires ValidMessage(m) && t + after == MessageText(m) + more && Feed(NEW, t).result == True
    ensures |t| - |Feed(NEW, t).rest| == |MessageText(m)|
  {
    hide Feed, Step, ValidMessage, MessageText, Denote;
    FeedRest(NEW, t);
    FeedConcat(NEW, t, after);
    AcceptsMessages(NEW, m, more);
  }

  /** If the handled requests are those of the session, the first of them is found in the whole first
      message, and nothing behind it is lost. */
  lemma FirstIsWhole(ms: seq<Message>, skipped: string, t: string, dropped: string, tail: seq<string>)
    requires ms != [] && Session(ms) && skipped + t + dropped + Flat(tail) == Texts(ms)
    requires Feed(NEW, t).result == True && Feed(NEW, t).rest == "" && Feed(NEW, t).config.req == Denote(ms[0])
    requires Handled("", true, tail) == Requests(ms[1..])
    ensures Flat(tail) == Texts(ms[1..])
  {
    hide Feed, Step, ValidMessage, MessageText, Denote, WantsKeepalive, Handled;
    var m, us, flat := ms[0], ms[1..], Flat(tail);
    assert Session(us);
    var all := skipped + t + dropped;
    hide Requests, Flat, Texts;
    assert all + flat == MessageText(m) + Texts(us) by { TextsOfFirst(ms); }
    if |all| > |MessageText(m)| {
      var lost := Cut(all, flat, MessageText(m), Texts(us));
      LateIsLost(us, true, tail, lost);
    }
    assert skipped + t + (dropped + flat) == all + flat;
    if skipped != "" {
      FirstBegins(m, skipped, t, dropped + flat, Texts(us));
    }
    assert t + (dropped + flat) == MessageText(m) + Texts(us);
    EndsTogether(m, t, dropped + flat, Texts(us));
    var none := Cut(all, flat, MessageText(m), Texts(us));
  }

  lemma NoMessages(chunks: seq<string>)
    ensures EndsAtCuts([], chunks)
  {
    StartIsCut([], chunks);
  }

  /** If the handled requests are those of the session, every message ends at the end of a read. */
  lemma {:induction false} HandledEndsAtCuts(ms: seq<Message>, keep: bool, chunks: seq<string>)
    requires Session(ms) && Filled(chunks) && Flat(chunks) == Texts(ms)
    requires Handled("", keep, chunks) == Requests(ms)
    ensures EndsAtCuts(ms, chunks)
    decreases |ms|
  {
    hide Feed, Step, ValidMessage, MessageText, Denote, WantsKeepalive, Handled, IsCut, EndsAtCuts;
    if ms == [] {
      NoMessages(chunks);
    } else {
      var m, us := ms[0], ms[1..];
      var skipped, t, dropped, i := FirstHandled("", keep, chunks);
      var tail := chunks[i..];
      assert Session(us) && Requests(ms)[1..] == Requests(us);
      hide Requests;
      assert "" + Flat(chunks) == Flat(chunks);
      FirstIsWhole(ms, skipped, t, dropped, tail);
      HandledEndsAtCuts(us, true, tail);
      FlatBetween(chunks, i, |chunks|);
      assert chunks[..|chunks|] == chunks && tail[..|chunks| - i] == tail;
      var none := Cut(Flat(chunks[..i]), Flat(tail), MessageText(m), Texts(us));
      CutsBehind(ms, chunks, i);
    }
  }

  lemma TextIsNotEmpty(m: Message)
    ensures MessageText(m) != ""
  {
  }

  lemma CutOf(chunks: seq<string>, n: nat) returns (i: nat)
    requires IsCut(chunks, n)
    ensures i <= |chunks| && |Flat(chunks[..i])| == n
  {
    i :| 0 <= i <= |chunks| && |Flat(chunks[..i])| == n;
  }

  lemma {:induction false} CutsAreHandled(ms: seq<Message>, keep: bool, chunks: seq<string>)
    requires Session(ms) && Filled(chunks) && Flat(chunks) == Texts(ms) && EndsAtCuts(ms, chunks)
    ensures Handled("", keep, chunks) == Requests(ms)
    decreases |ms|
  {
    hide ValidMessage, MessageText, Denote, WantsKeepalive, IsCut;
    if ms == [] {
      NothingLeft(chunks);
    } else {
      var m, us := ms[0], ms[1..];
      TextsFirst(ms, 0);
      assert us[..0] == [];
      var i := CutOf(chunks, |Texts(ms[..1])|);
      var tail := chunks[i..];
      hide EndsAtCuts, Handled, Feed, Step;
      FlatBetween(chunks, i, |chunks|);
      assert chunks[..|chunks|] == chunks && tail[..|chunks| - i] == tail;
      var none := Cut(Flat(chunks[..i]), Flat(tail), MessageText(m), Texts(us));
      CutsBehind(ms, chunks, i);
      CutsAreHandled(us, true, tail);
      assert MessageText(m) != "" by { TextIsNotEmpty(m); }
      HandledOne("", keep, chunks[..i], tail, m);
      assert chunks == chunks[..i] + tail;
    }
  }

  lemma SamePrefix<T>(a: seq<T>, b: seq<T>, c: seq<T>)
    ensures a + b == a + c <==> b == c
  {
    assert (a + b)[|a|..] == b && (a + c)[|a|..] == c;
  }

  lemma ShutIsOver(l: Conn, initial: bool)
    requires Invariant(l, initial)
    ensures l.shut ==> l.pendingReads == 0 && l.pendingWrites == 0
  {
    hide Awaits, Stream, Accepted, Answers, Sendable, WantsKeepalive, Safe;
  }

  lemma NothingComesLater(k: Conn, es: seq<Event>, more: seq<string>, initial: bool)
    requires Invariant(k, initial) && Safe(k.parser) && CanRun(k, es) && (more == [] || Run(k, es).shut)
    ensures Run(k, es).handled + Coming(Run(k, es), more) == Run(k, es).handled
  {
    hide Invariant, Run, CanRun;
    RunKeepsInvariant(k, es, initial);
    ShutIsOver(Run(k, es), initial);
    NothingComes(Run(k, es));
  }

  /** A client sends a session of requests that all want keep-alive, and the reads bring its bytes
      cut in any way, until all have come or the connection is shut. The handler gets exactly these
      requests if and only if each of them ends at the end of a read. */
  lemma SessionIsHandledIfCut(k: Conn, es: seq<Event>, more: seq<string>, ms: seq<Message>, initial: bool)
    requires Invariant(k, initial) && Listening(k)
    requires Safe(k.parser) && CanRun(k, es) && NoFailures(es) && (more == [] || Run(k, es).shut)
    requires Session(ms) && Filled(Reads(es) + more) && Flat(Reads(es) + more) == Texts(ms)
    ensures Run(k, es).handled == k.handled + Requests(ms) <==> EndsAtCuts(ms, Reads(es) + more)
  {
    hide Invariant, Run, CanRun, Handled, Coming, Fresh, Safe;
    hide Listening, Requests, EndsAtCuts, Session, Filled, Flat, Texts;
    var chunks := Reads(es) + more;
    RunBringsAll(k, es, more, initial);
    ComesToListener(k, chunks);
    NothingComesLater(k, es, more, initial);
    if EndsAtCuts(ms, chunks) {
      CutsAreHandled(ms, k.keepalive, chunks);
    } else if Handled("", k.keepalive, chunks) == Requests(ms) {
      HandledEndsAtCuts(ms, k.keepalive, chunks);
    }
    SamePrefix(k.handled, Handled("", k.keepalive, chunks), Requests(ms));
  }
}
