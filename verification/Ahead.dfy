/** A message that begins strictly inside another one and ends within it denotes a different
    request. Two parsers read the same bytes, one of which began earlier: the later one fails, or
    ends with a smaller request. */
module Ahead {
  import opened Text
  import opened Http
  import opened RequestParser
  import opened Grammar
  import opened Completeness
  import opened ParserTheorems

  predicate Larger(r: RequestValue, s: RequestValue) {
    |r.method_| > |s.method_| || |r.headers| > |s.headers| || |r.content| > |s.content|
  }

  /** The earlier parser has the longer method, and the later one cannot catch up. */
  predicate AheadByMethod(c: Config, d: Config) {
    |c.req.method_| > |d.req.method_| && (c.state == Method || (d.state != MethodStart && d.state != Method))
  }

  /** The earlier parser is behind the method in its request line, where the later one gets stuck. */
  predicate AheadInLine(c: Config, d: Config) {
    && (c.state == Uri || InVersion(c.state)) && InRequestLine(d.state)
    && (c.state == Uri ==> d.state != Uri)
    && (c.state == Newline1 ==> d.state == MethodStart)
  }

  /** The earlier parser reads header lines, which the later one begins to take for a request. */
  predicate AheadInHeaders(c: Config, d: Config) {
    && d.req.headers == []
    && if d.state == MethodStart then InHeaders(c.state) || c.state == Newline3
       else && (InRequestLine(d.state) || InVersion(d.state)) && c.req.headers != []
            && if d.state == Newline1 then c.state == Newline2 else LeadsToLastHeader(c.state)
  }

  /** The earlier parser has more headers, and both read the same line or the later one the body. */
  predicate AheadByHeaders(c: Config, d: Config) {
    && |c.req.headers| > |d.req.headers|
    && (d.state == Body || (c.state == d.state && (InHeaders(d.state) || d.state == Newline3)))
  }

  predicate AheadInBody(c: Config, d: Config) {
    && c.state == Body
    && (|c.req.content| > |d.req.content| || (d.req.content == "" && d.state == MethodStart))
  }

  predicate IsAhead(c: Config, d: Config) {
    AheadByMethod(c, d) || AheadInLine(c, d) || AheadInHeaders(c, d) || AheadByHeaders(c, d) || AheadInBody(c, d)
  }

  /** After a byte that the earlier parser takes: the later one fails, ends with a smaller request,
      or stays behind. */
  predicate StaysAhead(r: StepResult, s: StepResult) {
    match s.result
    case False => true
    case True => Larger(r.config.req, s.config.req)
    case Indeterminate => r.result == Indeterminate ==> IsAhead(r.config, s.config)
  }

  lemma StepGrows(c: Config, x: char)
    requires Safe(c)
    ensures var r, s := c.req, Step(c, x).config.req;
            |r.method_| <= |s.method_| && |r.headers| <= |s.headers| && |r.content| <= |s.content|
  {
    hide ContentLength, IsTokenChar, IsCtl, ToLower, DigitValue;
  }

  lemma MethodKept(d: Config, x: char)
    requires Safe(d) && d.state != MethodStart && d.state != Method
    ensures var e := Step(d, x).config;
            e.req.method_ == d.req.method_ && e.state != MethodStart && e.state != Method
  {
    hide ContentLength, PushName, PushValue;
  }

  lemma StepAheadByMethod(c: Config, d: Config, x: char)
    requires Safe(c) && Safe(d) && AheadByMethod(c, d) && Step(c, x).result != False
    ensures StaysAhead(Step(c, x), Step(d, x))
  {
    hide AheadInLine, AheadInHeaders, AheadByHeaders, AheadInBody;
    if d.state == MethodStart || d.state == Method {
      hide ContentLength, PushName, PushValue;
    } else {
      StepGrows(c, x);
      MethodKept(d, x);
      hide Step;
    }
  }

  lemma StepPastUri(c: Config, d: Config, x: char)
    requires Safe(c) && Safe(d) && AheadInLine(c, d) && c.state != Uri && Step(c, x).result != False
    ensures StaysAhead(Step(c, x), Step(d, x))
  {
    hide ContentLength, PushName, PushValue, DigitValue, Larger;
    hide AheadByMethod, AheadByHeaders, AheadInBody;
  }

  lemma StepAheadInLine(c: Config, d: Config, x: char)
    requires Safe(c) && Safe(d) && AheadInLine(c, d) && Step(c, x).result != False
    ensures StaysAhead(Step(c, x), Step(d, x))
  {
    hide ContentLength, PushName, PushValue, DigitValue, Larger;
    hide AheadByMethod, AheadInHeaders, AheadByHeaders, AheadInBody;
    if c.state != Uri {
      StepPastUri(c, d, x);
      hide Step;
    }
  }

  /** The later parser begins inside the header block. */
  lemma StepFromStart(c: Config, d: Config, x: char)
    requires Safe(c) && Safe(d) && AheadInHeaders(c, d) && d.state == MethodStart && Step(c, x).result != False
    ensures StaysAhead(Step(c, x), Step(d, x))
  {
    hide ContentLength, PushName, PushValue, ToLower;
    hide AheadByMethod, AheadInLine, AheadByHeaders, AheadInBody;
  }

  /** The later parser takes the rest of a header line for its request line. */
  lemma StepFromLine(c: Config, d: Config, x: char)
    requires Safe(c) && Safe(d) && AheadInHeaders(c, d) && Step(c, x).result != False
    requires d.state != MethodStart && d.state != Newline1
    ensures StaysAhead(Step(c, x), Step(d, x))
  {
    hide ContentLength, PushName, PushValue, ToLower, DigitValue, Larger;
    hide AheadByMethod, AheadInLine, AheadByHeaders, AheadInBody;
  }

  lemma StepAheadInHeaders(c: Config, d: Config, x: char)
    requires Safe(c) && Safe(d) && AheadInHeaders(c, d) && Step(c, x).result != False
    ensures StaysAhead(Step(c, x), Step(d, x))
  {
    hide ContentLength, PushName, PushValue, ToLower;
    hide AheadByMethod, AheadInLine, AheadInBody;
    if d.state == MethodStart {
      StepFromStart(c, d, x);
      hide Step;
    } else if d.state != Newline1 {
      StepFromLine(c, d, x);
      hide Step;
    }
  }

  lemma BodyKeeps(d: Config, x: char)
    requires d.state == Body
    ensures var r := Step(d, x); r.result != False && r.config.state == Body && r.config.req.headers == d.req.headers
  {
  }

  lemma StepAheadByHeaders(c: Config, d: Config, x: char)
    requires Safe(c) && Safe(d) && AheadByHeaders(c, d) && Step(c, x).result != False
    ensures StaysAhead(Step(c, x), Step(d, x))
  {
    hide ContentLength, AheadByMethod, AheadInLine, AheadInHeaders, AheadInBody;
    if d.state == Body {
      StepGrows(c, x);
      BodyKeeps(d, x);
      hide Step;
    }
  }

  lemma BodyGrows(c: Config, x: char)
    requires c.state == Body
    ensures var r := Step(c, x);
            |r.config.req.content| == |c.req.content| + 1 && r.config.state == Body
  {
  }

  lemma ContentGrowsByOne(d: Config, x: char)
    requires Safe(d)
    ensures |Step(d, x).config.req.content| <= |d.req.content| + if d.state == MethodStart then 0 else 1
  {
    hide ContentLength, PushName, PushValue, IsTokenChar, IsCtl, ToLower, DigitValue;
  }

  lemma StepAheadInBody(c: Config, d: Config, x: char)
    requires Safe(c) && Safe(d) && AheadInBody(c, d) && Step(c, x).result != False
    ensures StaysAhead(Step(c, x), Step(d, x))
  {
    BodyGrows(c, x);
    ContentGrowsByOne(d, x);
    hide Step, AheadByMethod, AheadInLine, AheadInHeaders, AheadByHeaders;
  }

  lemma StepAhead(c: Config, d: Config, x: char)
    requires Safe(c) && Safe(d) && IsAhead(c, d) && Step(c, x).result != False
    ensures StaysAhead(Step(c, x), Step(d, x))
  {
    hide Step, StaysAhead, AheadByMethod, AheadInLine, AheadInHeaders, AheadByHeaders, AheadInBody;
    if AheadByMethod(c, d) {
      StepAheadByMethod(c, d, x);
    } else if AheadInLine(c, d) {
      StepAheadInLine(c, d, x);
    } else if AheadInHeaders(c, d) {
      StepAheadInHeaders(c, d, x);
    } else if AheadByHeaders(c, d) {
      StepAheadByHeaders(c, d, x);
    } else {
      StepAheadInBody(c, d, x);
    }
  }

  lemma {:induction false} FeedGrows(c: Config, s: string, r: RequestValue)
    requires Safe(c) && Larger(c.req, r)
    ensures Larger(Feed(c, s).config.req, r)
    decreases |s|
  {
    hide Step;
    if s != "" {
      StepGrows(c, s[0]);
      if Step(c, s[0]).result == Indeterminate {
        FeedGrows(Step(c, s[0]).config, s[1..], r);
      }
    }
  }

  lemma {:induction false} FeedAhead(c: Config, d: Config, s: string)
    requires Safe(c) && Safe(d) && IsAhead(c, d)
    requires Feed(c, s).result == True && Feed(c, s).rest == ""
    ensures Feed(d, s).result == True ==> Larger(Feed(c, s).config.req, Feed(d, s).config.req)
    decreases |s|
  {
    hide Step, IsAhead, Larger, Safe;
    if s != "" {
      StepAhead(c, d, s[0]);
      var r, q := Step(c, s[0]), Step(d, s[0]);
      if q.result == True && r.result == Indeterminate {
        FeedGrows(r.config, s[1..], q.config.req);
      } else if q.result == Indeterminate && r.result == Indeterminate {
        FeedAhead(r.config, q.config, s[1..]);
      }
    }
  }

  lemma LeavesStart(c: Config, x: char)
    requires Safe(c) && Step(c, x).result == Indeterminate
    ensures Step(c, x).config.state != MethodStart
  {
    hide ContentLength;
  }

  lemma {:induction false} FeedLeavesStart(c: Config, s: string)
    requires Safe(c) && Feed(c, s).result == Indeterminate && s != ""
    ensures Feed(c, s).config.state != MethodStart
    decreases |s|
  {
    hide Step, Safe;
    LeavesStart(c, s[0]);
    if s[1..] == "" {
      FeedNothing(Step(c, s[0]).config);
    } else {
      FeedLeavesStart(Step(c, s[0]).config, s[1..]);
    }
  }

  /** A parser that has read something is ahead of one that begins. */
  lemma BeginsBehind(c: Config, d: Config)
    requires Consistent(c) && c.state != MethodStart && Fresh(d)
    ensures IsAhead(c, d)
  {
    hide ContentLength, TokenChars, ValidHeaders, IsUri;
  }

  /** `t` stands inside the text of `m`, behind its first byte. */
  lemma InsideDiffers(m: Message, u: string, t: string, z: string, c: Config)
    requires ValidMessage(m) && MessageText(m) == u + t + z && u != ""
    requires Fresh(c) && Feed(c, t).result == True
    ensures Feed(c, t).config.req != Denote(m)
  {
    hide Feed, Step, ValidMessage, MessageText, Denote, Consistent, IsAhead;
    var more := t + z;
    assert u + more == MessageText(m) + "";
    assert t != "" by { FeedNothing(c); }
    AcceptsMessages(c, m, "");
    FeedConcat(c, u, more);
    FeedConcat(c, t, z);
    var o := Feed(c, u);
    assert o.result == Indeterminate;
    ReachableIsConsistent(c, u);
    FeedLeavesStart(c, u);
    BeginsBehind(o.config, c);
    FeedAhead(o.config, c, more);
  }
}
