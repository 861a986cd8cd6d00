/** The incremental request parser (include/request_parser.hpp, src/request_parser.cpp).

    `Step` and `Feed` are the state machine on values; the class does the same by updating
    the parser and the request in place. */
module RequestParser {
  import opened Text
  import opened Http

  /** `boost::tribool`. */
  datatype Tribool = False | True | Indeterminate

  datatype State =
    | MethodStart
    | Method
    | Uri
    | VersionH
    | VersionT1
    | VersionT2
    | VersionP
    | VersionSlash
    | MajorStart
    | Major
    | MinorStart
    | Minor
    | Newline1
    | HeaderLineStart
    | HeaderLws
    | HeaderName
    | SpaceBeforeValue
    | HeaderValueText
    | Newline2
    | Newline3
    | Body

  const MAX_CONTENT := 16 * 1024 * 1024

  /** An `unsigned int`. */
  type Uint32 = n: int | 0 <= n < 0x1_0000_0000

  function Decrement(n: Uint32): (m: Uint32)
    ensures (m + 1) % 0x1_0000_0000 == n
  {
    if n == 0 then 0xFFFF_FFFF else n - 1
  }

  predicate IsChar(c: char) {
    c as int <= 127
  }

  predicate IsCtl(c: char) {
    c as int <= 31 || c as int == 127
  }

  /** `tspecials` of section 2.2 of RFC 2616. */
  predicate IsTspecial(c: char) {
    || c == '(' || c == ')' || c == '<' || c == '>' || c == '@'
    || c == ',' || c == ';' || c == ':' || c == '\\' || c == '"'
    || c == '/' || c == '[' || c == ']' || c == '?' || c == '='
    || c == '{' || c == '}' || c == ' ' || c == '\t'
  }

  predicate IsTokenChar(c: char) {
    IsChar(c) && !IsCtl(c) && !IsTspecial(c)
  }

  /** The parser's fields together with the request that it fills. */
  datatype Config = Config(state: State, bodyBytes: Uint32, req: RequestValue)

  /** States that use the last header. */
  predicate UsesLastHeader(s: State) {
    s == HeaderLws || s == HeaderName || s == HeaderValueText
  }

  predicate LeadsToLastHeader(s: State) {
    UsesLastHeader(s) || s == SpaceBeforeValue
  }

  /** What the calls to `headers.back()` need, in a form that every step keeps. */
  predicate Safe(c: Config) {
    LeadsToLastHeader(c.state) ==> c.req.headers != []
  }

  datatype StepResult = StepResult(config: Config, result: Tribool)

  function Goto(c: Config, s: State): StepResult {
    StepResult(c.(state := s), Indeterminate)
  }

  function Expect(c: Config, x: char, want: char, s: State): StepResult {
    if x == want then Goto(c, s) else StepResult(c, False)
  }

  function PushName(hs: seq<Header>, x: char): (gs: seq<Header>)
    requires hs != []
    ensures |gs| == |hs|
  {
    var n := |hs| - 1;
    hs[n := hs[n].(name := hs[n].name + [ToLower(x)])]
  }

  lemma PushNewHeader(hs: seq<Header>, x: char)
    ensures PushName(hs + [Header("", "")], x) == hs + [Header([ToLower(x)], "")]
  {
    assert "" + [ToLower(x)] == [ToLower(x)];
  }

  function PushValue(hs: seq<Header>, x: char): (gs: seq<Header>)
    requires hs != []
    ensures |gs| == |hs|
  {
    var n := |hs| - 1;
    hs[n := hs[n].(value := hs[n].value + [x])]
  }

  /** The value that governs the body. */
  function ContentLength(hs: seq<Header>): int {
    Atoi(HeaderValue(hs, "content-length"))
  }

  /** The line feed behind the header block. */
  function EndHeaders(c: Config): (r: StepResult)
    requires c.state == Newline3
    ensures Safe(r.config)
  {
    var length := ContentLength(c.req.headers);
    if length <= 0 then StepResult(c, True)
    else if length > MAX_CONTENT then StepResult(c, False)
    else Goto(c.(bodyBytes := length), Body)
  }

  /** One call of `consume`. */
  function Step(c: Config, x: char): (r: StepResult)
    requires Safe(c)
    ensures Safe(r.config)
  {
    var req := c.req;
    match c.state
    case MethodStart =>
      if !IsTokenChar(x) then StepResult(c, False)
      else Goto(c.(req := req.(method_ := req.method_ + [x])), Method)
    case Method =>
      if x == ' ' then Goto(c, Uri)
      else if !IsTokenChar(x) then StepResult(c, False)
      else Goto(c.(req := req.(method_ := req.method_ + [x])), Method)
    case Uri =>
      if x == ' ' then Goto(c, VersionH)
      else if IsCtl(x) then StepResult(c, False)
      else Goto(c.(req := req.(uri := req.uri + [x])), Uri)
    case VersionH => Expect(c, x, 'H', VersionT1)
    case VersionT1 => Expect(c, x, 'T', VersionT2)
    case VersionT2 => Expect(c, x, 'T', VersionP)
    case VersionP => Expect(c, x, 'P', VersionSlash)
    case VersionSlash =>
      if x == '/' then Goto(c.(req := req.(major := 0, minor := 0)), MajorStart)
      else StepResult(c, False)
    case MajorStart =>
      if IsDigit(x) then Goto(c.(req := req.(major := req.major * 10 + DigitValue(x))), Major)
      else StepResult(c, False)
    case Major =>
      if x == '.' then Goto(c, MinorStart)
      else if IsDigit(x) then Goto(c.(req := req.(major := req.major * 10 + DigitValue(x))), Major)
      else StepResult(c, False)
    case MinorStart =>
      if IsDigit(x) then Goto(c.(req := req.(minor := req.minor * 10 + DigitValue(x))), Minor)
      else StepResult(c, False)
    case Minor =>
      if x == '\r' then Goto(c, Newline1)
      else if IsDigit(x) then Goto(c.(req := req.(minor := req.minor * 10 + DigitValue(x))), Minor)
      else StepResult(c, False)
    case Newline1 => Expect(c, x, '\n', HeaderLineStart)
    case HeaderLineStart =>
      if x == '\r' then Goto(c, Newline3)
      else if req.headers != [] && (x == ' ' || x == '\t') then Goto(c, HeaderLws)
      else if !IsTokenChar(x) then StepResult(c, False)
      else Goto(c.(req := req.(headers := req.headers + [Header([ToLower(x)], "")])), HeaderName)
    case HeaderLws =>
      if x == '\r' then Goto(c, Newline2)
      else if x == ' ' || x == '\t' then Goto(c, HeaderLws)
      else if IsCtl(x) then StepResult(c, False)
      else Goto(c.(req := req.(headers := PushValue(req.headers, x))), HeaderValueText)
    case HeaderName =>
      if x == ':' then Goto(c, SpaceBeforeValue)
      else if !IsTokenChar(x) then StepResult(c, False)
      else Goto(c.(req := req.(headers := PushName(req.headers, x))), HeaderName)
    case SpaceBeforeValue => Expect(c, x, ' ', HeaderValueText)
    case HeaderValueText =>
      if x == '\r' then Goto(c, Newline2)
      else if IsCtl(x) then StepResult(c, False)
      else Goto(c.(req := req.(headers := PushValue(req.headers, x))), HeaderValueText)
    case Newline2 => Expect(c, x, '\n', HeaderLineStart)
    case Newline3 =>
      if x == '\n' then EndHeaders(c) else StepResult(c, False)
    case Body =>
      var left := Decrement(c.bodyBytes);
      StepResult(c.(bodyBytes := left, req := req.(content := req.content + [x])),
                 if left == 0 then True else Indeterminate)
  }

  /** The result of `parse`; `rest` is what lies behind the returned iterator. */
  datatype Outcome = Outcome(config: Config, result: Tribool, rest: string)

  function Feed(c: Config, s: string): (o: Outcome)
    requires Safe(c)
    ensures Safe(o.config)
    decreases |s|
  {
    if s == "" then Outcome(c, Indeterminate, "")
    else
      var r := Step(c, s[0]);
      if r.result != Indeterminate then Outcome(r.config, r.result, s[1..])
      else Feed(r.config, s[1..])
  }

  /** Consecutive calls of `parse` on the buffers of a run, up to a determinate result. */
  function FeedChunks(c: Config, chunks: seq<string>): (o: Outcome)
    requires Safe(c)
    ensures Safe(o.config)
    decreases |chunks|
  {
    if chunks == [] then Outcome(c, Indeterminate, "")
    else
      var o := Feed(c, chunks[0]);
      if o.result == Indeterminate then FeedChunks(o.config, chunks[1..])
      else o.(rest := o.rest + Flat(chunks[1..]))
  }

  /** A parser at the start of a request: the countdown and the version numbers may hold
      anything. */
  predicate Fresh(c: Config) {
    && c.state == MethodStart
    && c.req.method_ == "" && c.req.uri == "" && c.req.headers == [] && c.req.content == ""
  }

  predicate InRequestLine(s: State) {
    s == MethodStart || s == Method || s == Uri
  }

  predicate InVersion(s: State) {
    || s == VersionH || s == VersionT1 || s == VersionT2 || s == VersionP || s == VersionSlash
    || s == MajorStart || s == Major || s == MinorStart || s == Minor || s == Newline1
  }

  predicate InHeaders(s: State) {
    || s == HeaderLineStart || s == HeaderLws || s == HeaderName || s == SpaceBeforeValue
    || s == HeaderValueText || s == Newline2
  }

  lemma {:induction false} FeedRest(c: Config, s: string)
    requires Safe(c)
    ensures var o := Feed(c, s);
            && |o.rest| <= |s| && o.rest == s[|s| - |o.rest|..]
            && (o.result == Indeterminate ==> o.rest == "")
            && (o.result != Indeterminate ==> |o.rest| < |s|)
    decreases |s|
  {
    hide Step;
    if s != "" {
      var r := Step(c, s[0]);
      if r.result == Indeterminate {
        FeedRest(r.config, s[1..]);
      }
    }
  }

  lemma FeedNothing(c: Config)
    requires Safe(c)
    ensures Feed(c, "") == Outcome(c, Indeterminate, "")
  {
  }

  lemma FeedStep(c: Config, s: string)
    requires Safe(c) && s != ""
    ensures var r := Step(c, s[0]);
            Feed(c, s) == if r.result == Indeterminate then Feed(r.config, s[1..])
                          else Outcome(r.config, r.result, s[1..])
  {
  }

  class Parser {
    var state: State
    var bodyBytes: Uint32

    function View(req: Request): Config
      reads this, req
    {
      Config(state, bodyBytes, req.View())
    }

    constructor ()
      ensures state == MethodStart
    {
      state := MethodStart;
    }

    method Reset()
      modifies this
      ensures state == MethodStart && bodyBytes == old(bodyBytes)
    {
      state := MethodStart;
    }

    method AppendToName(req: Request, x: char)
      requires req.headers != []
      modifies req`headers
      ensures req.headers == PushName(old(req.headers), x)
    {
      var back := |req.headers| - 1;
      req.headers := req.headers[back := Header(req.headers[back].name + [ToLower(x)], req.headers[back].value)];
    }

    method AppendToValue(req: Request, x: char)
      requires req.headers != []
      modifies req`headers
      ensures req.headers == PushValue(old(req.headers), x)
    {
      var back := |req.headers| - 1;
      req.headers := req.headers[back := Header(req.headers[back].name, req.headers[back].value + [x])];
    }

    method ConsumeRequestLine(req: Request, x: char) returns (result: Tribool)
      requires InRequestLine(state) && Safe(View(req))
      modifies this, req
      ensures StepResult(View(req), result) == Step(old(View(req)), x)
    {
      match state
      case MethodStart =>
        if !IsChar(x) || IsCtl(x) || IsTspecial(x) {
          return False;
        }
        state := Method;
        req.method_ := req.method_ + [x];
        return Indeterminate;
      case Method =>
        if x == ' ' {
          state := Uri;
          return Indeterminate;
        } else if !IsChar(x) || IsCtl(x) || IsTspecial(x) {
          return False;
        }
        req.method_ := req.method_ + [x];
        return Indeterminate;
      case Uri =>
        if x == ' ' {
          state := VersionH;
          return Indeterminate;
        } else if IsCtl(x) {
          return False;
        }
        req.uri := req.uri + [x];
        return Indeterminate;
    }

    method ConsumeVersion(req: Request, x: char) returns (result: Tribool)
      requires InVersion(state) && Safe(View(req))
      modifies this, req
      ensures StepResult(View(req), result) == Step(old(View(req)), x)
    {
      match state
      case VersionH =>
        if x != 'H' {
          return False;
        }
        state := VersionT1;
        return Indeterminate;
      case VersionT1 =>
        if x != 'T' {
          return False;
        }
        state := VersionT2;
        return Indeterminate;
      case VersionT2 =>
        if x != 'T' {
          return False;
        }
        state := VersionP;
        return Indeterminate;
      case VersionP =>
        if x != 'P' {
          return False;
        }
        state := VersionSlash;
        return Indeterminate;
      case VersionSlash =>
        if x != '/' {
          return False;
        }
        req.major := 0;
        req.minor := 0;
        state := MajorStart;
        return Indeterminate;
      case MajorStart =>
        if !IsDigit(x) {
          return False;
        }
        req.major := req.major * 10 + x as int - '0' as int;
        state := Major;
        return Indeterminate;
      case Major =>
        if x == '.' {
          state := MinorStart;
          return Indeterminate;
        } else if !IsDigit(x) {
          return False;
        }
        req.major := req.major * 10 + x as int - '0' as int;
        return Indeterminate;
      case MinorStart =>
        if !IsDigit(x) {
          return False;
        }
        req.minor := req.minor * 10 + x as int - '0' as int;
        state := Minor;
        return Indeterminate;
      case Minor =>
        if x == '\r' {
          state := Newline1;
          return Indeterminate;
        } else if !IsDigit(x) {
          return False;
        }
        req.minor := req.minor * 10 + x as int - '0' as int;
        return Indeterminate;
      case Newline1 =>
        if x != '\n' {
          return False;
        }
        state := HeaderLineStart;
        return Indeterminate;
    }

    method ConsumeHeader(req: Request, x: char) returns (result: Tribool)
      requires InHeaders(state) && Safe(View(req))
      modifies this, req
      ensures StepResult(View(req), result) == Step(old(View(req)), x)
    {
      match state
      case HeaderLineStart =>
        if x == '\r' {
          state := Newline3;
          return Indeterminate;
        } else if |req.headers| != 0 && (x == ' ' || x == '\t') {
          state := HeaderLws;
          return Indeterminate;
        } else if !IsChar(x) || IsCtl(x) || IsTspecial(x) {
          return False;
        }
        req.headers := req.headers + [Header("", "")];
        AppendToName(req, x);
        PushNewHeader(old(req.headers), x);
        state := HeaderName;
        return Indeterminate;
      case HeaderLws =>
        if x == '\r' {
          state := Newline2;
          return Indeterminate;
        } else if x == ' ' || x == '\t' {
          return Indeterminate;
        } else if IsCtl(x) {
          return False;
        }
        state := HeaderValueText;
        AppendToValue(req, x);
        return Indeterminate;
      case HeaderName =>
        if x == ':' {
          state := SpaceBeforeValue;
          return Indeterminate;
        } else if !IsChar(x) || IsCtl(x) || IsTspecial(x) {
          return False;
        }
        AppendToName(req, x);
        return Indeterminate;
      case SpaceBeforeValue =>
        if x != ' ' {
          return False;
        }
        state := HeaderValueText;
        return Indeterminate;
      case HeaderValueText =>
        if x == '\r' {
          state := Newline2;
          return Indeterminate;
        } else if IsCtl(x) {
          return False;
        }
        AppendToValue(req, x);
        return Indeterminate;
      case Newline2 =>
        if x != '\n' {
          return False;
        }
        state := HeaderLineStart;
        return Indeterminate;
    }

    method ConsumeEnd(req: Request, x: char) returns (result: Tribool)
      requires (state == Newline3 || state == Body) && Safe(View(req))
      modifies this, req
      ensures StepResult(View(req), result) == Step(old(View(req)), x)
    {
      hide Atoi;
      match state
      case Newline3 =>
        var haveNewline := x == '\n';
        if haveNewline {
          var clenHdr := req.GetHeader("content-length");
          var clen := Atoi(clenHdr);
          if clen > 0 {
            if clen > 16 * 1024 * 1024 {
              return False;
            }
            bodyBytes := clen;
            state := Body;
            return Indeterminate;
          }
        }
        return if haveNewline then True else False;
      case Body =>
        req.content := req.content + [x];
        bodyBytes := Decrement(bodyBytes);
        if bodyBytes == 0 {
          return True;
        }
        return Indeterminate;
    }

    /** One byte of input; the groups of the state switch have methods of their own. */
    method Consume(req: Request, x: char) returns (result: Tribool)
      requires Safe(View(req))
      modifies this, req
      ensures StepResult(View(req), result) == Step(old(View(req)), x)
    {
      hide Step;
      if InRequestLine(state) {
        result := ConsumeRequestLine(req, x);
      } else if InVersion(state) {
        result := ConsumeVersion(req, x);
      } else if InHeaders(state) {
        result := ConsumeHeader(req, x);
      } else {
        result := ConsumeEnd(req, x);
      }
    }

    /** Parses `buffer[begin..end]`; `next` is the returned iterator. */
    method Parse(req: Request, buffer: array<char>, begin: nat, end: nat) returns (result: Tribool, next: nat)
      requires Safe(View(req))
      requires begin <= end <= buffer.Length
      modifies this, req
      ensures begin <= next <= end
      ensures Outcome(View(req), result, buffer[next..end]) == Feed(old(View(req)), buffer[begin..end])
    {
      hide *;
      next := begin;
      ghost var text := buffer[begin..end];
      ghost var goal := Feed(View(req), text);
      ghost var c, left := View(req), text;
      while next != end
        invariant begin <= next <= end
        invariant c == View(req) && left == buffer[next..end]
        invariant Safe(c) && Feed(c, left) == goal
        decreases end - next
      {
        FeedStep(c, left);
        result := Consume(req, buffer[next]);
        next := next + 1;
        c, left := View(req), left[1..];
        if result != Indeterminate {
          return;
        }
      }
      FeedNothing(c);
      result := Indeterminate;
    }
  }
}
