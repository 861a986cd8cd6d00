/** What the parser is for: it recognises the language of messages, keeps its fields
    consistent in every reachable state, and reads back every printed request. */
module ParserTheorems {
  import opened Text
  import opened Http
  import opened RequestParser
  import opened Grammar
  import opened Soundness
  import opened Completeness

  /** From a fresh parser, `parse` returns true exactly when the bytes begin with a message; it
      then has consumed that message and nothing else, and the request is what it denotes. */
  lemma ParserEqualsGrammar(c: Config, s: string)
    requires Fresh(c)
    ensures Safe(c)
    ensures Feed(c, s).result == True <==> exists m :: ValidMessage(m) && MessageText(m) <= s
    ensures forall m | ValidMessage(m) && MessageText(m) <= s ::
              Feed(c, s).rest == s[|MessageText(m)|..] && Feed(c, s).config.req == Denote(m)
  {
    hide Feed, ValidMessage, MessageText, Denote;
    if Feed(c, s).result == True {
      var m := AcceptsOnlyMessages(c, s);
      assert MessageText(m) <= s;
    }
    forall m | ValidMessage(m) && MessageText(m) <= s
      ensures Feed(c, s).result == True
      ensures Feed(c, s).rest == s[|MessageText(m)|..] && Feed(c, s).config.req == Denote(m)
    {
      var rest := s[|MessageText(m)|..];
      assert s == MessageText(m) + rest;
      AcceptsMessages(c, m, rest);
    }
  }

  /** No two messages with different texts begin the same input, so the grammar assigns one request. */
  lemma GrammarIsUnambiguous(m: Message, n: Message, rest: string, more: string)
    requires ValidMessage(m) && ValidMessage(n)
    requires MessageText(m) + rest == MessageText(n) + more
    ensures rest == more && MessageText(m) == MessageText(n) && Denote(m) == Denote(n)
  {
    hide Feed, ValidMessage, MessageText, Denote;
    var c := Config(MethodStart, 0, RequestValue("", "", 0, 0, [], ""));
    AcceptsMessages(c, m, rest);
    AcceptsMessages(c, n, more);
    assert MessageText(m) == (MessageText(m) + rest)[..|MessageText(m)|];
    assert MessageText(n) == (MessageText(n) + more)[..|MessageText(n)|];
  }

  predicate ValidHeader(h: Header) {
    IsToken(h.name) && NoCapitals(h.name) && IsText(h.value)
  }

  predicate ValidHeaders(hs: seq<Header>) {
    forall i | 0 <= i < |hs| :: ValidHeader(hs[i])
  }

  /** What holds of parser and request whenever more input is awaited. */
  predicate Consistent(c: Config) {
    && Safe(c)
    && (c.state == Newline2 ==> c.req.headers != [])
    && TokenChars(c.req.method_) && (c.state != MethodStart ==> c.req.method_ != "")
    && IsUri(c.req.uri)
    && ValidHeaders(c.req.headers)
    && (if c.state == Body
        then 1 <= c.bodyBytes && |c.req.content| + c.bodyBytes == ContentLength(c.req.headers) <= MAX_CONTENT
        else c.req.content == "")
  }

  lemma LowerIsLower(s: string)
    requires IsToken(s)
    ensures IsToken(Lower(s)) && NoCapitals(Lower(s))
  {
    assert forall i | 0 <= i < |s| :: IsTokenChar(s[i]) && Lower(s)[i] == ToLower(s[i]);
  }

  lemma {:induction false} FieldValueIsText(f: Field)
    requires ValidField(f)
    ensures IsText(FieldValue(f))
    decreases |f.folds|
  {
    var n := |f.folds|;
    if n > 0 {
      FieldValueIsText(f.(folds := f.folds[..n - 1]));
      assert ValidFold(f.folds[n - 1]);
    }
  }

  lemma FieldHeaderValid(f: Field)
    requires ValidField(f)
    ensures ValidHeader(FieldHeader(f))
  {
    LowerIsLower(f.name);
    FieldValueIsText(f);
  }

  lemma {:induction false} HeadersValid(fs: seq<Field>)
    requires ValidFields(fs)
    ensures ValidHeaders(Headers(fs))
    decreases |fs|
  {
    if fs != [] {
      var n := |fs| - 1;
      HeadersValid(fs[..n]);
      FieldHeaderValid(fs[n]);
    }
  }

  lemma HeadersTracedValid(c: Config, d: Progress, p: string)
    requires TracesHeaders(c, d, p)
    ensures ValidHeaders(c.req.headers)
  {
    hide OpenField, LinesText, FieldsText, Headers, FieldValue;
    HeadersValid(d.m.fields);
    if c.state == HeaderName || c.state == SpaceBeforeValue {
      LowerIsLower(d.field.name);
    } else if c.state == HeaderLws || c.state == HeaderValueText || c.state == Newline2 {
      FieldHeaderValid(d.field);
    }
  }

  lemma TracedIsConsistent(c: Config, d: Progress, p: string)
    requires Safe(c) && Traces(c, d, p)
    ensures Consistent(c)
  {
    hide OpenField, LinesText, FieldsText, Headers, FieldValue, MessageText, ContentLength, Opening, RequestLine;
    if c.state == Body {
      hide TracesRequestLine, TracesVersion, TracesHeaders;
      HeadersValid(d.m.fields);
    } else if TracesHeaders(c, d, p) {
      HeadersTracedValid(c, d, p);
    }
  }

  /** Every state reached from a fresh parser is consistent: the calls of `headers.back()` are
      defined, and the body countdown never wraps around. */
  lemma ReachableIsConsistent(c: Config, s: string)
    requires Fresh(c)
    ensures Safe(c)
    ensures Feed(c, s).result == Indeterminate ==> Consistent(Feed(c, s).config)
  {
    hide Feed, Traces, Consistent, ValidMessage, MessageText, Denote;
    var d := FreshTraces(c);
    d := FeedTraces(c, d, "", s);
    var o := Feed(c, s);
    if o.result == Indeterminate {
      TracedIsConsistent(o.config, d, "" + s);
    }
  }

  /** The requests that have a text of their own. */
  predicate WellFormed(r: RequestValue) {
    && IsToken(r.method_) && IsUri(r.uri) && r.major >= 0 && r.minor >= 0
    && ValidHeaders(r.headers)
    && |r.content| == BodyLength(r.headers) <= MAX_CONTENT
  }

  function FieldsOf(hs: seq<Header>): seq<Field> {
    if hs == [] then [] else FieldsOf(hs[..|hs| - 1]) + [Field(hs[|hs| - 1].name, hs[|hs| - 1].value, [])]
  }

  /** The message that prints a request: decimal versions, one line for each header. */
  function Printed(r: RequestValue): Message
    requires r.major >= 0 && r.minor >= 0
  {
    Message(r.method_, r.uri, Decimal(r.major), Decimal(r.minor), FieldsOf(r.headers), r.content)
  }

  lemma {:induction false} FieldsOfHeaders(hs: seq<Header>)
    requires ValidHeaders(hs)
    ensures ValidFields(FieldsOf(hs)) && Headers(FieldsOf(hs)) == hs
  {
    if hs != [] {
      var n := |hs| - 1;
      FieldsOfHeaders(hs[..n]);
      LowerOfSmall(hs[n].name);
      FieldsTextAppend(FieldsOf(hs[..n]), Field(hs[n].name, hs[n].value, []));
      assert hs == hs[..n] + [hs[n]];
    }
  }

  lemma PrintedDenotes(r: RequestValue)
    requires WellFormed(r)
    ensures ValidMessage(Printed(r)) && Denote(Printed(r)) == r
  {
    hide ContentLength, Decimal, DecimalValue, Headers, FieldsOf;
    FieldsOfHeaders(r.headers);
    DecimalRoundTrip(r.major);
    DecimalRoundTrip(r.minor);
  }

  /** Parsing the text of a well-formed request rebuilds the request and consumes exactly the text. */
  lemma RequestRoundTrip(c: Config, r: RequestValue, rest: string)
    requires Fresh(c) && WellFormed(r)
    ensures Safe(c)
    ensures var o := Feed(c, MessageText(Printed(r)) + rest);
            o.result == True && o.rest == rest && o.config.req == r
  {
    hide Feed, MessageText, ValidMessage, Denote;
    PrintedDenotes(r);
    AcceptsMessages(c, Printed(r), rest);
  }

  lemma DenotesWellFormed(m: Message)
    requires ValidMessage(m)
    ensures WellFormed(Denote(m))
  {
    hide ContentLength, Headers;
    HeadersValid(m.fields);
    DecimalValueIsNat(m.major);
    DecimalValueIsNat(m.minor);
  }

  lemma WellFormedVersion(r: RequestValue)
    requires WellFormed(r)
    ensures r.major >= 0 && r.minor >= 0
  {
  }

  /** The parser can hand over a request exactly when it is well-formed. */
  lemma ParsedIsWellFormed(c: Config, r: RequestValue)
    requires Fresh(c)
    ensures Safe(c)
    ensures WellFormed(r) <==> exists s :: Feed(c, s).result == True && Feed(c, s).config.req == r
  {
    hide Feed, MessageText, ValidMessage, Denote, WellFormed;
    if WellFormed(r) {
      assert r.major >= 0 && r.minor >= 0 by { WellFormedVersion(r); }
      RequestRoundTrip(c, r, "");
      assert Feed(c, MessageText(Printed(r)) + "").result == True;
    }
    forall s | Feed(c, s).result == True && Feed(c, s).config.req == r
      ensures WellFormed(r)
    {
      var m := AcceptsOnlyMessages(c, s);
      DenotesWellFormed(m);
    }
  }

  /** Configurations that differ only in values that will be overwritten before they are used. */
  predicate Alike(c: Config, d: Config) {
    && c.state == d.state
    && c.req.method_ == d.req.method_ && c.req.uri == d.req.uri
    && c.req.headers == d.req.headers && c.req.content == d.req.content
    && (c.state == Body ==> c.bodyBytes == d.bodyBytes)
    && (!InRequestLine(c.state) && !InOpening(c.state) ==> c.req == d.req)
  }

  lemma StepAlike(c: Config, d: Config, x: char)
    requires Safe(c) && Safe(d) && Alike(c, d)
    ensures Step(c, x).result == Step(d, x).result
    ensures Step(c, x).result != False ==> Alike(Step(c, x).config, Step(d, x).config)
    ensures Step(c, x).result == True ==> Step(c, x).config.req == Step(d, x).config.req
  {
    hide ContentLength, IsTokenChar, IsCtl, PushName, PushValue, ToLower;
  }

  /** Values left over from an earlier request, such as an old body countdown or old version
      numbers, influence nothing: any two fresh parsers give the same results and requests. */
  lemma {:induction false} LeftoversDoNotMatter(c: Config, d: Config, s: string)
    requires Safe(c) && Safe(d) && Alike(c, d)
    ensures var o, q := Feed(c, s), Feed(d, s);
            && o.result == q.result && o.rest == q.rest
            && (o.result == Indeterminate ==> Alike(o.config, q.config))
            && (o.result == True ==> o.config.req == q.config.req)
    decreases |s|
  {
    hide Step, Alike;
    if s != "" {
      StepAlike(c, d, s[0]);
      if Step(c, s[0]).result == Indeterminate {
        LeftoversDoNotMatter(Step(c, s[0]).config, Step(d, s[0]).config, s[1..]);
      }
    }
  }

  lemma FreshAreAlike(c: Config, d: Config)
    requires Fresh(c) && Fresh(d)
    ensures Safe(c) && Safe(d) && Alike(c, d)
  {
  }
}
