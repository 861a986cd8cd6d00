/** Which inputs can still become a message, and when the parser says so.

    One would like `parse` to return false as soon as no continuation is acceptable. It does
    so at every byte except one case: a content length above 16 MiB that can no longer change
    is noticed only at the line feed that ends the header block. */
module Rejection {
  import opened Text
  import opened Http
  import opened RequestParser
  import opened Grammar
  import opened Soundness
  import opened Completeness

  /** Some message begins with `p`. */
  ghost predicate Viable(p: string) {
    exists m :: ValidMessage(m) && p <= MessageText(m)
  }

  /** The headers hold a content length that is too large and final: it stands in a header that is
      not the last, or its numeral is terminated, or the header block is over. */
  predicate TooLarge(hs: seq<Header>, over: bool) {
    var i := FirstHeader(hs, "content-length");
    && i < |hs| && Atoi(hs[i].value) > MAX_CONTENT
    && (i < |hs| - 1 || !OpenNumeral(hs[i].value) || over)
  }

  predicate Doomed(c: Config) {
    TooLarge(c.req.headers, c.state == Newline3)
  }

  /** Complete header lines, with the first byte of the blank line if the block is over. */
  predicate LinesRead(p: string, m: Message, hs: seq<Header>, over: bool) {
    && IsToken(m.method_) && IsUri(m.uri) && IsNumeral(m.major) && IsNumeral(m.minor) && ValidFields(m.fields)
    && hs == Headers(m.fields) && p == LinesText(m) + if over then "\r" else ""
  }

  /** Complete header lines and the name of a further header, perhaps with its colon. */
  predicate NameRead(p: string, m: Message, name: string, hs: seq<Header>) {
    && LinesRead(LinesText(m), m, Headers(m.fields), false) && IsToken(name)
    && hs == Headers(m.fields) + [Header(Lower(name), "")]
    && (p == LinesText(m) + name || p == LinesText(m) + name + ":")
  }

  /** Complete header lines and a further header, perhaps with the carriage return behind it. */
  predicate FieldRead(p: string, m: Message, f: Field, hs: seq<Header>) {
    && LinesRead(LinesText(m), m, Headers(m.fields), false) && ValidField(f)
    && hs == Headers(m.fields) + [FieldHeader(f)]
    && (p == LinesText(m) + OpenField(f) || p == LinesText(m) + OpenField(f) + "\r")
  }

  /** `p` ends in or behind a header block that holds the headers `hs`. */
  ghost predicate HoldsHeaders(p: string, hs: seq<Header>, over: bool) {
    || (exists m :: LinesRead(p, m, hs, over))
    || (!over && exists m, name :: NameRead(p, m, name, hs))
    || (!over && exists m, f :: FieldRead(p, m, f, hs))
  }

  /** The input announces a body that is too large, and no further input can change that. */
  ghost predicate Hopeless(p: string) {
    exists hs, over :: HoldsHeaders(p, hs, over) && TooLarge(hs, over)
  }

  lemma FirstHeaderAppend(hs: seq<Header>, h: Header, name: string)
    ensures FirstHeader(hs, name) < |hs| ==> FirstHeader(hs + [h], name) == FirstHeader(hs, name)
    ensures FirstHeader(hs, name) == |hs| ==>
              FirstHeader(hs + [h], name) == if h.name == name then |hs| else |hs| + 1
  {
    var i := FirstHeader(hs, name);
    if i < |hs| {
      FirstHeaderIs(hs + [h], name, i);
    } else {
      FirstHeaderIs(hs + [h], name, if h.name == name then |hs| else |hs| + 1);
    }
  }

  /** The content length of a header list in terms of its last header. */
  lemma ContentLengthOfLast(hs: seq<Header>, h: Header)
    ensures var i := FirstHeader(hs, "content-length");
            ContentLength(hs + [h]) == if i < |hs| then ContentLength(hs)
                                       else if h.name == "content-length" then Atoi(h.value)
                                       else Atoi("")
  {
    hide Atoi;
    FirstHeaderAppend(hs, h, "content-length");
  }

  lemma AtoiOfNothing()
    ensures Atoi("") == 0
  {
  }

  /** In the part of the header block where a value can grow. */
  lemma StepDoomedValue(c: Config, hs: seq<Header>, h: Header, t: string)
    requires c.req.headers == hs + [h] && Doomed(c) && c.state != Newline3
    ensures var d := c.(req := c.req.(headers := hs + [h.(value := h.value + t)]));
            Doomed(d) && Doomed(d.(state := HeaderValueText))
  {
    hide Atoi;
    var g := h.(value := h.value + t);
    FirstHeaderAppend(hs, h, "content-length");
    FirstHeaderAppend(hs, g, "content-length");
    if FirstHeader(hs, "content-length") == |hs| {
      AtoiClosed(h.value, t);
    }
  }

  lemma StepDoomedName(c: Config, hs: seq<Header>, h: Header, g: Header)
    requires c.req.headers == hs + [h] && h.value == "" && Doomed(c)
    ensures Doomed(c.(req := c.req.(headers := hs + [g])))
  {
    hide Atoi;
    FirstHeaderAppend(hs, h, "content-length");
    FirstHeaderAppend(hs, g, "content-length");
    AtoiOfNothing();
  }

  lemma StepDoomedHeader(c: Config, h: Header)
    requires Doomed(c)
    ensures Doomed(c.(state := HeaderName, req := c.req.(headers := c.req.headers + [h])))
  {
    hide Atoi;
    FirstHeaderAppend(c.req.headers, h, "content-length");
  }

  lemma DoomedInHeaders(c: Config, d: Progress, p: string)
    requires Traces(c, d, p) && Doomed(c)
    ensures TracesHeaders(c, d, p)
  {
    hide OpenField, LinesText, FieldsText, Headers, FieldValue, MessageText, Opening, RequestLine, DecimalValue, Atoi;
    hide TracesHeaders;
  }

  /** A doomed parser stays doomed until it rejects. */
  lemma StepDoomed(c: Config, d: Progress, p: string, x: char)
    requires Safe(c) && TracesHeaders(c, d, p) && Doomed(c)
    ensures var r := Step(c, x); r.result == False || (r.result == Indeterminate && Doomed(r.config))
  {
    hide OpenField, LinesText, FieldsText, Headers, FieldValue;
    hide Atoi, OpenNumeral, FirstHeader, RequestLine, DecimalValue;
    var n := |c.req.headers| - 1;
    var hs, h := c.req.headers[..n], c.req.headers[n];
    assert c.req.headers == hs + [h];
    match c.state
    case HeaderLineStart => StepDoomedHeader(c, Header([ToLower(x)], ""));
    case HeaderLws =>
      StepDoomedValue(c, hs, h, [x]);
      assert PushValue(c.req.headers, x) == hs + [h.(value := h.value + [x])];
    case HeaderValueText =>
      StepDoomedValue(c, hs, h, [x]);
      assert PushValue(c.req.headers, x) == hs + [h.(value := h.value + [x])];
    case HeaderName =>
      StepDoomedName(c, hs, h, h.(name := h.name + [ToLower(x)]));
      assert PushName(c.req.headers, x) == hs + [h.(name := h.name + [ToLower(x)])];
    case _ =>
  }

  lemma {:induction false} FeedDoomed(c: Config, d: Progress, p: string, s: string)
    requires Safe(c) && Traces(c, d, p) && Doomed(c)
    ensures Feed(c, s).result != True
    decreases |s|
  {
    hide Step, Doomed, Traces, TracesHeaders, ValidMessage, MessageText, Denote;
    if s != "" {
      DoomedInHeaders(c, d, p);
      StepDoomed(c, d, p, s[0]);
      var e := StepTraces(c, d, p, s[0]);
      if Step(c, s[0]).result == Indeterminate {
        FeedDoomed(Step(c, s[0]).config, e, p + [s[0]], s[1..]);
      }
    }
  }

  /** `m` completes `p`. */
  predicate Completes(p: string, tail: string, m: Message) {
    ValidMessage(m) && p + tail == MessageText(m)
  }

  function Bare(method_: string, uri: string, major: string, minor: string): Message {
    Message(method_, uri, major, minor, [], "")
  }

  lemma BareIsValid(method_: string, uri: string, major: string, minor: string)
    requires IsToken(method_) && IsUri(uri) && IsNumeral(major) && IsNumeral(minor)
    ensures ValidMessage(Bare(method_, uri, major, minor))
    ensures MessageText(Bare(method_, uri, major, minor)) == RequestLine(method_, uri, major, minor) + "\r\n"
  {
    hide Atoi, RequestLine;
    AtoiOfNothing();
  }

  const BARE_END := "0.0\r\n\r\n"

  lemma BareText(method_: string, uri: string)
    requires IsToken(method_) && IsUri(uri)
    ensures ValidMessage(Bare(method_, uri, "0", "0"))
    ensures MessageText(Bare(method_, uri, "0", "0")) == Opening(Bare(method_, uri, "0", "0")) + BARE_END
  {
    BareIsValid(method_, uri, "0", "0");
    hide MessageText, ValidMessage;
  }

  lemma CompleteTarget(c: Config, d: Progress, p: string) returns (tail: string, m: Message)
    requires TracesRequestLine(c, d, p) && InRequestLine(c.state)
    ensures Completes(p, tail, m)
  {
    hide ValidMessage, MessageText;
    m := Bare(if c.state == MethodStart then "A" else d.m.method_, d.m.uri, "0", "0");
    BareText(m.method_, m.uri);
    tail := if c.state == MethodStart then Opening(m) + BARE_END
            else if c.state == Method then "  HTTP/" + BARE_END
            else " HTTP/" + BARE_END;
  }

  lemma CompleteVersionWord(c: Config, d: Progress, p: string) returns (tail: string, m: Message)
    requires TracesRequestLine(c, d, p) && InOpening(c.state)
    ensures Completes(p, tail, m)
  {
    m := Bare(d.m.method_, d.m.uri, "0", "0");
    BareText(m.method_, m.uri);
    assert Opening(d.m) == Opening(m);
    hide ValidMessage, MessageText, Opening;
    var word := match c.state
      case VersionH => "HTTP/"
      case VersionT1 => "TTP/"
      case VersionT2 => "TP/"
      case VersionP => "P/"
      case _ => "/";
    assert p + word == Opening(m);
    tail := word + BARE_END;
    assert p + tail == p + word + BARE_END;
  }

  lemma CompleteVersion(c: Config, d: Progress, p: string) returns (tail: string, m: Message)
    requires TracesVersion(c, d, p)
    ensures Completes(p, tail, m)
  {
    hide ValidMessage, MessageText, DecimalValue;
    var major := if d.m.major == "" then "0" else d.m.major;
    var minor := if d.m.minor == "" then "0" else d.m.minor;
    m := Bare(d.m.method_, d.m.uri, major, minor);
    BareIsValid(m.method_, m.uri, major, minor);
    assert MessageText(m) == Opening(m) + major + "." + minor + "\r\n\r\n";
    match c.state
    case MajorStart => tail := "0.0\r\n\r\n";
    case Major => tail := ".0\r\n\r\n";
    case MinorStart => tail := "0\r\n\r\n";
    case Minor => tail := "\r\n\r\n";
    case _ => tail := "\n\r\n";
  }

  function Filler(n: nat): (s: string)
    ensures |s| == n
  {
    seq(n, _ => 'x')
  }

  /** Complete header lines with an acceptable content length always have a message. */
  lemma CompleteLines(c: Config, m0: Message, fs: seq<Field>) returns (tail: string, m: Message)
    requires LineRead(c, m0) && ValidFields(fs) && ContentLength(Headers(fs)) <= MAX_CONTENT
    ensures Completes(LinesText(m0.(fields := fs)), "\r\n" + tail, m)
  {
    hide ContentLength, Headers, FieldsText, RequestLine, DecimalValue;
    tail := Filler(BodyLength(Headers(fs)));
    m := m0.(fields := fs, body := tail);
    assert MessageText(m) == LinesText(m0.(fields := fs)) + ("\r\n" + tail);
  }

  /** The same with one more field `f`, given as text `q` that ends the field. */
  lemma CompleteField(c: Config, m: Message, p: string, f: Field, q: string) returns (tail: string, n: Message)
    requires LineRead(c, m) && ValidField(f) && p + q == LinesText(m) + FieldText(f)
    requires ContentLength(Headers(m.fields) + [FieldHeader(f)]) <= MAX_CONTENT
    ensures Completes(p, q + "\r\n" + tail, n)
  {
    hide ContentLength, Headers, FieldsText, FieldText, FieldValue;
    hide RequestLine, DecimalValue, ValidMessage, MessageText, ValidField;
    var fs := m.fields + [f];
    FieldsTextAppend(m.fields, f);
    assert ValidFields(fs) by {
      assert forall i | 0 <= i < |fs| :: fs[i] == f || fs[i] in m.fields;
    }
    tail, n := CompleteLines(c, m, fs);
    assert LinesText(m.(fields := fs)) == p + q;
    assert p + (q + "\r\n" + tail) == p + q + ("\r\n" + tail);
  }

  lemma BlankIsZero(s: string)
    requires SkipSpaces(s) == ""
    ensures Atoi(s) == 0
  {
  }

  /** An extension of the field in progress that makes the content length acceptable. */
  lemma ShrinkLength(hs: seq<Header>, h: Header, t: string)
    requires ContentLength(hs + [h]) > MAX_CONTENT
    requires FirstHeader(hs + [h], "content-length") == |hs| && OpenNumeral(h.value)
    requires t == Nines(20)
    ensures ContentLength(hs + [h.(value := h.value + t)]) <= MAX_CONTENT
  {
    var g := h.(value := h.value + t);
    assert SkipSpaces(h.value) != "" by {
      if SkipSpaces(h.value) == "" {
        BlankIsZero(h.value);
        ContentLengthOfLast(hs, h);
      }
    }
    hide Atoi, OpenNumeral;
    FirstHeaderAppend(hs, h, "content-length");
    ContentLengthOfLast(hs, g);
    Pow10Twenty();
    AtoiSaturates(h.value, 20);
  }

  /** `ShrinkLength` applies to a configuration that is not doomed. */
  lemma ShrinkNotDoomed(c: Config, hs: seq<Header>, h: Header)
    requires c.req.headers == hs + [h] && !Doomed(c) && ContentLength(c.req.headers) > MAX_CONTENT
    ensures ContentLength(hs + [h.(value := h.value + Nines(20))]) <= MAX_CONTENT
  {
    hide Atoi, OpenNumeral;
    AtoiOfNothing();
    ShrinkLength(hs, h, Nines(20));
  }

  lemma ExtendValidText(f: Field, n: nat)
    requires ValidField(f) && n > 0
    ensures ValidField(Extend(f, Nines(n)))
  {
    var k := |f.folds|;
    var g := Extend(f, Nines(n));
    if k > 0 {
      assert ValidFold(f.folds[k - 1]);
      assert ValidFold(g.folds[k - 1]);
      assert forall i | 0 <= i < k - 1 :: g.folds[i] == f.folds[i];
    }
  }

  lemma FoldNines(f: Field, n: nat)
    requires ValidField(f) && n > 0
    ensures var g := f.(folds := f.folds + [Fold(" ", Nines(n))]);
            && ValidField(g)
            && OpenField(g) == FieldText(f) + " " + Nines(n)
            && FieldHeader(g) == FieldHeader(f).(value := FieldValue(f) + Nines(n))
  {
    var g := f.(folds := f.folds + [Fold(" ", Nines(n))]);
    assert g.folds[..|f.folds|] == f.folds && g.(folds := f.folds) == f;
    assert ValidFold(Fold(" ", Nines(n)));
    assert forall i | 0 <= i < |f.folds| :: g.folds[i] == f.folds[i];
  }

  /** While the last value is empty, the content length is acceptable. */
  lemma NameFits(c: Config, d: Progress, p: string)
    requires TracesHeaders(c, d, p) && !Doomed(c) && (c.state == HeaderName || c.state == SpaceBeforeValue)
    ensures ContentLength(Headers(d.m.fields) + [FieldHeader(d.field)]) <= MAX_CONTENT
  {
    hide Atoi, Headers, LinesText, OpenField;
    var hs, h := Headers(d.m.fields), FieldHeader(d.field);
    ContentLengthOfLast(hs, h);
    FirstHeaderAppend(hs, h, "content-length");
    AtoiOfNothing();
  }

  /** The empty value that ends a header name, with or without the colon read already. */
  lemma EndOfName(f: Field, lines: string, p: string, colon: string, q: string)
    requires f.value == "" && f.folds == [] && p == lines + f.name + colon && colon + q == ": \r\n"
    ensures p + q == lines + FieldText(f)
  {
    assert OpenField(f) == f.name + ": ";
    assert p + q == lines + f.name + (colon + q);
  }

  lemma CompleteName(c: Config, d: Progress, p: string) returns (tail: string, m: Message)
    requires TracesHeaders(c, d, p) && !Doomed(c) && (c.state == HeaderName || c.state == SpaceBeforeValue)
    ensures Completes(p, tail, m)
  {
    NameFits(c, d, p);
    hide Atoi, ContentLength, LinesText, Headers, FieldText, DecimalValue, Completes, Doomed;
    var colon := if c.state == HeaderName then "" else ":";
    var q := if c.state == HeaderName then ": \r\n" else " \r\n";
    EndOfName(d.field, LinesText(d.m), p, colon, q);
    tail, m := CompleteField(c, d.m, p, d.field, q);
    tail := q + "\r\n" + tail;
  }

  lemma CompleteValue(c: Config, d: Progress, p: string) returns (tail: string, m: Message)
    requires TracesHeaders(c, d, p) && !Doomed(c) && (c.state == HeaderValueText || c.state == HeaderLws)
    ensures Completes(p, tail, m)
  {
    hide Atoi, LinesText, Headers, DecimalValue, Completes, OpenField, FieldValue, Doomed, ContentLength;
    var hs, f := Headers(d.m.fields), d.field;
    var q := "\r\n";
    if ContentLength(c.req.headers) > MAX_CONTENT {
      ShrinkNotDoomed(c, hs, FieldHeader(f));
      ExtendText(f, Nines(20));
      ExtendValidText(f, 20);
      f, q := Extend(f, Nines(20)), Nines(20) + "\r\n";
    }
    assert p + q == LinesText(d.m) + FieldText(f);
    tail, m := CompleteField(c, d.m, p, f, q);
    tail := q + "\r\n" + tail;
  }

  lemma CompleteNewline(c: Config, d: Progress, p: string) returns (tail: string, m: Message)
    requires TracesHeaders(c, d, p) && !Doomed(c) && c.state == Newline2
    ensures Completes(p, tail, m)
  {
    hide Atoi, LinesText, Headers, DecimalValue, Completes, OpenField, FieldValue, Doomed, ContentLength;
    var hs, f := Headers(d.m.fields), d.field;
    var q := "\n";
    if ContentLength(c.req.headers) > MAX_CONTENT {
      ShrinkNotDoomed(c, hs, FieldHeader(f));
      FoldNines(f, 20);
      f, q := f.(folds := f.folds + [Fold(" ", Nines(20))]), "\n " + Nines(20) + "\r\n";
      assert p + q == LinesText(d.m) + (FieldText(d.field) + " " + Nines(20) + "\r\n");
    }
    assert p + q == LinesText(d.m) + FieldText(f);
    tail, m := CompleteField(c, d.m, p, f, q);
    tail := q + "\r\n" + tail;
  }

  /** Between header lines, with a content length that is too large: the last header is continued. */
  lemma CompleteByFolding(c: Config, d: Progress, p: string) returns (tail: string, m: Message)
    requires TracesHeaders(c, d, p) && !Doomed(c) && c.state == HeaderLineStart
    requires ContentLength(c.req.headers) > MAX_CONTENT
    ensures Completes(p, tail, m)
  {
    hide Atoi, Headers, FieldsText, RequestLine, DecimalValue, OpenField, FieldValue, MessageText, ValidMessage;
    AtoiOfNothing();
    var fs := d.m.fields;
    assert fs != [];
    var n := |fs| - 1;
    var m0, f := d.m.(fields := fs[..n]), fs[n];
    FieldsTextLast(fs);
    ShrinkNotDoomed(c, Headers(fs[..n]), FieldHeader(f));
    hide Doomed, ContentLength;
    FoldNines(f, 20);
    var g, q := f.(folds := f.folds + [Fold(" ", Nines(20))]), " " + Nines(20) + "\r\n";
    assert p + q == LinesText(m0) + FieldText(g);
    tail, m := CompleteField(c, m0, p, g, q);
    tail := q + "\r\n" + tail;
  }

  /** Between header lines: with an acceptable length the block can end here. */
  lemma CompleteLineStart(c: Config, d: Progress, p: string) returns (tail: string, m: Message)
    requires TracesHeaders(c, d, p) && !Doomed(c) && (c.state == HeaderLineStart || c.state == Newline3)
    ensures Completes(p, tail, m)
  {
    hide Atoi, Headers, LinesText, OpenField, MessageText, ValidMessage;
    if ContentLength(c.req.headers) <= MAX_CONTENT {
      hide ContentLength, Doomed;
      tail, m := CompleteLines(c, d.m, d.m.fields);
      assert d.m.(fields := d.m.fields) == d.m;
      var all := "\r\n" + tail;
      tail := if c.state == Newline3 then "\n" + tail else all;
      assert p + tail == LinesText(d.m) + all;
    } else {
      AtoiOfNothing();
      tail, m := CompleteByFolding(c, d, p);
    }
  }

  lemma CompleteBody(c: Config, d: Progress, p: string) returns (tail: string, m: Message)
    requires TracesBody(c, d, p)
    ensures Completes(p, tail, m)
  {
    hide ContentLength, Headers, FieldsText, RequestLine, DecimalValue;
    tail := Filler(c.bodyBytes);
    m := d.m.(body := d.m.body + tail);
    assert p + tail == MessageText(m);
  }

  /** Whatever has been read can be continued to a message, unless it is doomed. */
  lemma NotDoomedCompletes(c: Config, d: Progress, p: string) returns (tail: string, m: Message)
    requires Traces(c, d, p) && !Doomed(c)
    ensures Completes(p, tail, m)
  {
    hide TracesRequestLine, TracesVersion, TracesHeaders, TracesBody, Doomed, Completes;
    if InRequestLine(c.state) {
      tail, m := CompleteTarget(c, d, p);
    } else if InOpening(c.state) {
      tail, m := CompleteVersionWord(c, d, p);
    } else if InVersion(c.state) {
      tail, m := CompleteVersion(c, d, p);
    } else if c.state == Body {
      tail, m := CompleteBody(c, d, p);
    } else if c.state == HeaderName || c.state == SpaceBeforeValue {
      tail, m := CompleteName(c, d, p);
    } else if c.state == HeaderValueText || c.state == HeaderLws {
      tail, m := CompleteValue(c, d, p);
    } else if c.state == Newline2 {
      tail, m := CompleteNewline(c, d, p);
    } else {
      tail, m := CompleteLineStart(c, d, p);
    }
  }

  /** The same in terms of the parser that has read the input. */
  lemma ViableUnlessDoomed(c: Config, p: string)
    requires Fresh(c)
    ensures Safe(c)
    ensures var o := Feed(c, p);
            Viable(p) <==> match o.result
                           case False => false
                           case True => o.rest == ""
                           case Indeterminate => !Doomed(o.config)
  {
    hide Feed, Traces, Doomed, ValidMessage, MessageText, Denote;
    var o := Feed(c, p);
    var d := FreshTraces(c);
    d := FeedTraces(c, d, "", p);
    assert "" + p == p;
    if o.result == Indeterminate && !Doomed(o.config) {
      var tail, m := NotDoomedCompletes(o.config, d, p);
      assert p <= MessageText(m);
    } else if o.result == True && o.rest == "" {
      assert MessageText(d.m) + "" == p;
      assert p <= MessageText(d.m);
    }
    forall m | ValidMessage(m) && p <= MessageText(m)
      ensures o.result != False && (o.result == True ==> o.rest == "")
      ensures o.result == Indeterminate ==> !Doomed(o.config)
    {
      var tail := MessageText(m)[|p|..];
      assert MessageText(m) == p + tail && MessageText(m) + "" == MessageText(m);
      AcceptsMessages(c, m, "");
      FeedConcat(c, p, tail);
      if o.result == Indeterminate && Doomed(o.config) {
        FeedDoomed(o.config, d, p, tail);
      }
    }
  }

  lemma LinesAreRead(c: Config, p: string, m: Message, hs: seq<Header>, over: bool)
    requires Fresh(c) && LinesRead(p, m, hs, over)
    ensures Reads(c, p, AtLine(c, if over then Newline3 else HeaderLineStart, m, hs))
  {
    hide Feed, Reads, RequestLine, FieldsText, Headers, DecimalValue;
    if over {
      ReadLines(c, m);
    } else {
      ReadRequestLine(c, m);
      var c1 := AtLine(c, HeaderLineStart, m, []);
      ReadFields(c1, m.fields);
      var c2 := AtLine(c, HeaderLineStart, m, hs);
      ReadsThen(c, RequestLine(m.method_, m.uri, m.major, m.minor), c1, FieldsText(m.fields), c2);
      assert p == LinesText(m);
    }
  }

  lemma NameIsRead(c: Config, p: string, m: Message, name: string, hs: seq<Header>)
    requires Fresh(c) && NameRead(p, m, name, hs)
    ensures Feed(c, p).result == Indeterminate && Feed(c, p).config.req.headers == hs
    ensures Feed(c, p).config.state != Newline3
  {
    LinesAreRead(c, LinesText(m), m, Headers(m.fields), false);
    var c1 := AtLine(c, HeaderLineStart, m, Headers(m.fields));
    ReadName(c1, name);
    hide Feed, LinesText, Headers, DecimalValue, IsToken, Lower;
    var c2 := AtHeader(c1, HeaderName, hs);
    ReadsThen(c, LinesText(m), c1, name, c2);
    if p == LinesText(m) + name + ":" {
      ReadsThenByte(c, LinesText(m) + name, c2, ':');
    }
  }

  lemma FieldIsRead(c: Config, p: string, m: Message, f: Field, hs: seq<Header>)
    requires Fresh(c) && FieldRead(p, m, f, hs)
    ensures Feed(c, p).result == Indeterminate && Feed(c, p).config.req.headers == hs
    ensures Feed(c, p).config.state != Newline3
  {
    LinesAreRead(c, LinesText(m), m, Headers(m.fields), false);
    var c1 := AtLine(c, HeaderLineStart, m, Headers(m.fields));
    ReadOpenField(c1, f);
    hide Feed, LinesText, Headers, DecimalValue, OpenField, FieldHeader, ValidField;
    var c2 := AtHeader(c1, OpenState(f), hs);
    ReadsThen(c, LinesText(m), c1, OpenField(f), c2);
    if p == LinesText(m) + OpenField(f) + "\r" {
      ReadsThenByte(c, LinesText(m) + OpenField(f), c2, '\r');
    }
  }

  /** The parser has the headers that the input holds. */
  lemma HeadersAreRead(c: Config, p: string, hs: seq<Header>, over: bool)
    requires Fresh(c) && HoldsHeaders(p, hs, over)
    ensures Safe(c) && Feed(c, p).result == Indeterminate
    ensures Feed(c, p).config.req.headers == hs && (Feed(c, p).config.state == Newline3 <==> over)
  {
    hide Feed, LinesRead, NameRead, FieldRead;
    if m :| LinesRead(p, m, hs, over) {
      LinesAreRead(c, p, m, hs, over);
    } else if m, name :| !over && NameRead(p, m, name, hs) {
      NameIsRead(c, p, m, name, hs);
    } else {
      var m, f :| FieldRead(p, m, f, hs);
      FieldIsRead(c, p, m, f, hs);
    }
  }

  lemma TracesHoldHeaders(c: Config, d: Progress, p: string)
    requires TracesHeaders(c, d, p)
    ensures HoldsHeaders(p, c.req.headers, c.state == Newline3)
  {
    hide LinesText, Headers, OpenField, FieldValue, DecimalValue;
    var hs := c.req.headers;
    assert LinesRead(LinesText(d.m), d.m, Headers(d.m.fields), false) by {
      assert LinesText(d.m) + "" == LinesText(d.m);
    }
    if c.state == HeaderLineStart || c.state == Newline3 {
      assert LinesRead(p, d.m, hs, c.state == Newline3);
    } else if c.state == HeaderName || c.state == SpaceBeforeValue {
      assert NameRead(p, d.m, d.field.name, hs);
    } else {
      assert FieldRead(p, d.m, d.field, hs);
    }
  }

  /** A waiting parser is doomed exactly if its input is hopeless. */
  lemma DoomedIfHopeless(c: Config, p: string)
    requires Fresh(c)
    ensures Safe(c)
    ensures Hopeless(p) <==> Feed(c, p).result == Indeterminate && Doomed(Feed(c, p).config)
  {
    hide Feed, Traces, TracesHeaders, TooLarge, HoldsHeaders, ValidMessage, MessageText, Denote;
    var o := Feed(c, p);
    if Hopeless(p) {
      var hs, over :| HoldsHeaders(p, hs, over) && TooLarge(hs, over);
      HeadersAreRead(c, p, hs, over);
    }
    if o.result == Indeterminate && Doomed(o.config) {
      var d := FreshTraces(c);
      d := FeedTraces(c, d, "", p);
      assert "" + p == p;
      DoomedInHeaders(o.config, d, p);
      TracesHoldHeaders(o.config, d, p);
    }
  }

  /** The result of `parse` tells whether the input can still become a message, unless the input
      announces a body above 16 MiB and no further input can change that: false means no, true means
      yes if nothing follows the message, indeterminate means yes. */
  lemma RejectsExactlyTheHopeless(c: Config, p: string)
    requires Fresh(c)
    ensures Safe(c)
    ensures var o := Feed(c, p);
            Viable(p) <==>
              !Hopeless(p) && (o.result == Indeterminate || (o.result == True && o.rest == ""))
  {
    hide Feed, Doomed, Hopeless, Viable;
    ViableUnlessDoomed(c, p);
    DoomedIfHopeless(c, p);
  }

  /** The start of a request that announces a body of `n` bytes, with a space after the number. */
  function Announcement(n: nat): Message {
    Message("P", "/", "1", "0", [Field("content-length", Decimal(n) + " ", [])], "")
  }

  lemma AnnouncedValue(n: nat)
    requires n < 0x8000_0000
    ensures Atoi(Decimal(n) + " ") == n && !OpenNumeral(Decimal(n) + " ")
  {
    hide Decimal, DecimalValue, LeadingDigits;
    var s := Decimal(n) + " ";
    DecimalRoundTrip(n);
    assert SkipSpaces(s) == s && Unsigned(s) == s by {
      assert IsDigit(s[0]);
    }
    LeadingDigitsOf(Decimal(n), " ");
    assert !IsDigit(s[|s| - 1]);
  }

  lemma ContentLengthName()
    ensures IsToken("content-length") && Lower("content-length") == "content-length"
  {
  }

  lemma IsTokenP()
    ensures IsToken("P")
  {
  }

  lemma AnnouncementLines(n: nat)
    ensures var m := Announcement(n);
            && IsToken(m.method_) && IsUri(m.uri) && IsNumeral(m.major) && IsNumeral(m.minor) && ValidFields(m.fields)
            && Headers(m.fields) == [Header("content-length", Decimal(n) + " ")]
  {
    var t := Decimal(n) + " ";
    ContentLengthName();
    hide Decimal, FieldText, IsToken;
    var f := Field("content-length", t, []);
    FieldsTextLast([f]);
    assert [f][..0] == [];
    assert ValidField(f);
    assert IsToken("P") by { IsTokenP(); }
  }

  /** The parser does not always reject as early as possible: the announcement of a body above
      16 MiB, with the first byte of the blank line, begins no message, and the parser waits for more. */
  lemma RejectsTooLate(c: Config, n: nat)
    requires Fresh(c) && MAX_CONTENT < n < 0x8000_0000
    ensures Safe(c)
    ensures var p := LinesText(Announcement(n)) + "\r";
            Feed(c, p).result == Indeterminate && !Viable(p)
  {
    hide Feed, LinesText, Headers, Atoi, OpenNumeral, Viable, Decimal;
    var m := Announcement(n);
    AnnouncementLines(n);
    ReadLines(c, m);
    AnnouncedValue(n);
    FirstHeaderIs(Headers(m.fields), "content-length", 0);
    ViableUnlessDoomed(c, LinesText(m) + "\r");
  }
}
