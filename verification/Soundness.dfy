/** Whatever the parser has read is the beginning of a message, and the fields of the parser
    and of the request are determined by that beginning. */
module Soundness {
  import opened Text
  import opened Http
  import opened RequestParser
  import opened Grammar

  /** The pieces read so far: `m` as far as it is complete, and the header field in progress. */
  datatype Progress = Progress(m: Message, field: Field)

  const NO_FIELD := Field("", "", [])

  function Opening(m: Message): string {
    m.method_ + " " + m.uri + " HTTP/"
  }

  /** In the request line, `p` is the text read and `d` its pieces. */
  predicate TracesRequestLine(c: Config, d: Progress, p: string) {
    var m := d.m;
    && d.field == NO_FIELD
    && c.req.headers == [] && c.req.content == "" && m.fields == [] && m.body == ""
    && c.req.method_ == m.method_ && c.req.uri == m.uri
    && match c.state
       case MethodStart => m.method_ == "" && m.uri == "" && p == ""
       case Method => IsToken(m.method_) && m.uri == "" && p == m.method_
       case Uri => IsToken(m.method_) && IsUri(m.uri) && p == m.method_ + " " + m.uri
       case VersionH => IsToken(m.method_) && IsUri(m.uri) && p + "HTTP/" == Opening(m)
       case VersionT1 => IsToken(m.method_) && IsUri(m.uri) && p + "TTP/" == Opening(m)
       case VersionT2 => IsToken(m.method_) && IsUri(m.uri) && p + "TP/" == Opening(m)
       case VersionP => IsToken(m.method_) && IsUri(m.uri) && p + "P/" == Opening(m)
       case VersionSlash => IsToken(m.method_) && IsUri(m.uri) && p + "/" == Opening(m)
       case _ => false
  }

  predicate TracesVersion(c: Config, d: Progress, p: string) {
    var m := d.m;
    && d.field == NO_FIELD
    && c.req.headers == [] && c.req.content == "" && m.fields == [] && m.body == ""
    && c.req.method_ == m.method_ && c.req.uri == m.uri
    && IsToken(m.method_) && IsUri(m.uri)
    && c.req.major == DecimalValue(m.major) && c.req.minor == DecimalValue(m.minor)
    && match c.state
       case MajorStart => m.major == "" && m.minor == "" && p == Opening(m)
       case Major => IsNumeral(m.major) && m.minor == "" && p == Opening(m) + m.major
       case MinorStart => IsNumeral(m.major) && m.minor == "" && p == Opening(m) + m.major + "."
       case Minor => IsNumeral(m.major) && IsNumeral(m.minor) && p == Opening(m) + m.major + "." + m.minor
       case Newline1 =>
         && IsNumeral(m.major) && IsNumeral(m.minor)
         && p + "\n" == RequestLine(m.method_, m.uri, m.major, m.minor)
       case _ => false
  }

  /** The request line is complete and the request holds it. */
  predicate LineRead(c: Config, m: Message) {
    && IsToken(m.method_) && IsUri(m.uri) && IsNumeral(m.major) && IsNumeral(m.minor)
    && ValidFields(m.fields)
    && c.req.method_ == m.method_ && c.req.uri == m.uri
    && c.req.major == DecimalValue(m.major) && c.req.minor == DecimalValue(m.minor)
    && c.req.content == m.body
  }

  predicate TracesName(c: Config, d: Progress, p: string) {
    && d.field.value == "" && d.field.folds == [] && IsToken(d.field.name)
    && c.req.headers == Headers(d.m.fields) + [Header(Lower(d.field.name), "")]
    && p == LinesText(d.m) + d.field.name + (if c.state == SpaceBeforeValue then ":" else "")
  }

  /** Inside a header value or a continuation line. */
  predicate TracesValue(c: Config, d: Progress, p: string) {
    && ValidField(d.field)
    && c.req.headers == Headers(d.m.fields) + [FieldHeader(d.field)]
    && p == LinesText(d.m) + OpenField(d.field) + (if c.state == Newline2 then "\r" else "")
    && var n := |d.field.folds|;
       && (c.state == HeaderLws ==> n > 0 && d.field.folds[n - 1].text == "")
       && (c.state == HeaderValueText && n > 0 ==> d.field.folds[n - 1].text != "")
  }

  predicate TracesHeaders(c: Config, d: Progress, p: string) {
    && LineRead(c, d.m) && d.m.body == ""
    && match c.state
       case HeaderLineStart => d.field == NO_FIELD && c.req.headers == Headers(d.m.fields) && p == LinesText(d.m)
       case HeaderName => TracesName(c, d, p)
       case SpaceBeforeValue => TracesName(c, d, p)
       case HeaderLws => TracesValue(c, d, p)
       case HeaderValueText => TracesValue(c, d, p)
       case Newline2 => TracesValue(c, d, p)
       case Newline3 => d.field == NO_FIELD && c.req.headers == Headers(d.m.fields) && p == LinesText(d.m) + "\r"
       case _ => false
  }

  predicate TracesBody(c: Config, d: Progress, p: string) {
    && c.state == Body
    && LineRead(c, d.m) && d.field == NO_FIELD && c.req.headers == Headers(d.m.fields)
    && p == MessageText(d.m)
    && 1 <= ContentLength(c.req.headers) <= MAX_CONTENT
    && c.bodyBytes >= 1 && |d.m.body| + c.bodyBytes == ContentLength(c.req.headers)
  }

  predicate InOpening(s: State) {
    s == VersionH || s == VersionT1 || s == VersionT2 || s == VersionP || s == VersionSlash
  }

  predicate Traces(c: Config, d: Progress, p: string) {
    if InRequestLine(c.state) || InOpening(c.state) then TracesRequestLine(c, d, p)
    else if InVersion(c.state) then TracesVersion(c, d, p)
    else if c.state == Body then TracesBody(c, d, p)
    else TracesHeaders(c, d, p)
  }

  lemma StepRequestLine(c: Config, d: Progress, p: string, x: char) returns (e: Progress)
    requires Safe(c) && TracesRequestLine(c, d, p)
    requires Step(c, x).result == Indeterminate
    ensures Traces(Step(c, x).config, e, p + [x])
  {
    var m := d.m;
    e := d;
    match c.state
    case MethodStart => e := d.(m := m.(method_ := [x]));
    case Method =>
      if x != ' ' {
        e := d.(m := m.(method_ := m.method_ + [x]));
      }
    case Uri =>
      if x != ' ' {
        e := d.(m := m.(uri := m.uri + [x]));
        assert p + [x] == m.method_ + " " + (m.uri + [x]);
      }
    case VersionSlash =>
      e := d.(m := m.(major := "", minor := ""));
      assert p + [x] == Opening(m);
    case _ =>
  }

  lemma DecimalValuePush(s: string, x: char)
    ensures DecimalValue(s + [x]) == DecimalValue(s) * 10 + DigitValue(x)
  {
    assert (s + [x])[..|s|] == s;
  }

  lemma StepMajor(c: Config, d: Progress, p: string, x: char) returns (e: Progress)
    requires Safe(c) && TracesVersion(c, d, p) && (c.state == MajorStart || c.state == Major)
    requires Step(c, x).result == Indeterminate
    ensures TracesVersion(Step(c, x).config, e, p + [x])
  {
    var m := d.m;
    e := d;
    if x == '.' {
      assert p + [x] == Opening(m) + m.major + ".";
    } else {
      e := d.(m := m.(major := m.major + [x]));
      DecimalValuePush(m.major, x);
      assert p + [x] == Opening(m) + (m.major + [x]);
    }
  }

  lemma StepMinor(c: Config, d: Progress, p: string, x: char) returns (e: Progress)
    requires Safe(c) && TracesVersion(c, d, p) && (c.state == MinorStart || c.state == Minor)
    requires Step(c, x).result == Indeterminate
    ensures TracesVersion(Step(c, x).config, e, p + [x])
  {
    var m := d.m;
    e := d;
    if x == '\r' {
      assert p + [x] + "\n" == RequestLine(m.method_, m.uri, m.major, m.minor);
    } else {
      e := d.(m := m.(minor := m.minor + [x]));
      DecimalValuePush(m.minor, x);
      assert p + [x] == Opening(m) + m.major + "." + (m.minor + [x]);
    }
  }

  lemma StepLineEnd(c: Config, d: Progress, p: string, x: char)
    requires Safe(c) && TracesVersion(c, d, p) && c.state == Newline1
    requires Step(c, x).result == Indeterminate
    ensures TracesHeaders(Step(c, x).config, d, p + [x])
  {
    assert p + [x] == RequestLine(d.m.method_, d.m.uri, d.m.major, d.m.minor);
    assert LinesText(d.m) == RequestLine(d.m.method_, d.m.uri, d.m.major, d.m.minor);
  }

  lemma StepVersion(c: Config, d: Progress, p: string, x: char) returns (e: Progress)
    requires Safe(c) && TracesVersion(c, d, p)
    requires Step(c, x).result == Indeterminate
    ensures Traces(Step(c, x).config, e, p + [x])
  {
    e := d;
    if c.state == MajorStart || c.state == Major {
      e := StepMajor(c, d, p, x);
    } else if c.state == Newline1 {
      StepLineEnd(c, d, p, x);
    } else {
      e := StepMinor(c, d, p, x);
    }
  }

  lemma LowerPush(s: string, x: char)
    ensures Lower(s + [x]) == Lower(s) + [ToLower(x)]
  {
  }

  lemma FoldLast(f: Field, lead: string)
    ensures var g := f.(folds := f.folds + [Fold(lead, "")]);
            OpenField(g) == FieldText(f) + lead && FieldValue(g) == FieldValue(f)
  {
    var g := f.(folds := f.folds + [Fold(lead, "")]);
    assert g.folds[..|f.folds|] == f.folds;
    assert g.(folds := f.folds) == f;
    assert OpenField(g) == OpenField(f) + "\r\n" + lead + "";
    assert FieldValue(g) == FieldValue(f) + "";
  }

  /** A field line is open for folding until the next header or the blank line. */
  lemma StepFold(c: Config, d: Progress, p: string, x: char) returns (e: Progress)
    requires Safe(c) && TracesHeaders(c, d, p) && c.state == HeaderLineStart
    requires d.m.fields != [] && (x == ' ' || x == '\t')
    ensures TracesHeaders(Step(c, x).config, e, p + [x])
  {
    hide RequestLine, FieldsText, Headers, OpenField, FieldValue, DecimalValue;
    var fs := d.m.fields;
    var n := |fs| - 1;
    var last := fs[n];
    var folded := last.(folds := last.folds + [Fold([x], "")]);
    e := Progress(d.m.(fields := fs[..n]), folded);
    FoldLast(last, [x]);
    FieldsTextLast(fs);
    assert ValidFold(Fold([x], ""));
    assert ValidField(last) && ValidField(folded);
    assert p + [x] == LinesText(e.m) + OpenField(folded);
  }

  lemma StepNewName(c: Config, d: Progress, p: string, x: char) returns (e: Progress)
    requires Safe(c) && TracesHeaders(c, d, p) && c.state == HeaderLineStart
    requires IsTokenChar(x)
    ensures TracesHeaders(Step(c, x).config, e, p + [x])
  {
    hide RequestLine, FieldsText, Headers, OpenField, ValidField;
    e := d.(field := Field([x], "", []));
    LowerPush("", x);
    assert Lower([x]) == [ToLower(x)];
  }

  lemma StepLineStart(c: Config, d: Progress, p: string, x: char) returns (e: Progress)
    requires Safe(c) && TracesHeaders(c, d, p) && c.state == HeaderLineStart
    requires Step(c, x).result == Indeterminate
    ensures TracesHeaders(Step(c, x).config, e, p + [x])
  {
    e := d;
    if x == '\r' {
    } else if d.m.fields != [] && (x == ' ' || x == '\t') {
      e := StepFold(c, d, p, x);
    } else {
      e := StepNewName(c, d, p, x);
    }
  }

  lemma StepName(c: Config, d: Progress, p: string, x: char) returns (e: Progress)
    requires Safe(c) && TracesHeaders(c, d, p) && (c.state == HeaderName || c.state == SpaceBeforeValue)
    requires Step(c, x).result == Indeterminate
    ensures TracesHeaders(Step(c, x).config, e, p + [x])
  {
    hide RequestLine;
    e := d;
    if c.state == SpaceBeforeValue {
      assert OpenField(d.field) == d.field.name + ": " + "";
      assert p + [x] == LinesText(d.m) + OpenField(d.field);
    } else if x == ':' {
    } else {
      e := d.(field := d.field.(name := d.field.name + [x]));
      LowerPush(d.field.name, x);
      assert p + [x] == LinesText(d.m) + (d.field.name + [x]);
    }
  }

  /** Text appended to the last piece of a field in progress. */
  function Extend(f: Field, t: string): Field {
    var n := |f.folds|;
    if n == 0 then f.(value := f.value + t)
    else f.(folds := f.folds[n - 1 := f.folds[n - 1].(text := f.folds[n - 1].text + t)])
  }

  function ExtendLead(f: Field, x: char): Field
    requires f.folds != []
  {
    var n := |f.folds|;
    f.(folds := f.folds[n - 1 := f.folds[n - 1].(lead := f.folds[n - 1].lead + [x])])
  }

  lemma LastFold(f: Field)
    requires f.folds != []
    ensures var n := |f.folds| - 1;
            var g, last := f.(folds := f.folds[..n]), f.folds[n];
            OpenField(f) == OpenField(g) + "\r\n" + last.lead + last.text && FieldValue(f) == FieldValue(g) + last.text
  {
  }

  lemma ReplaceLast(f: Field, x: Fold)
    requires f.folds != []
    ensures var n := |f.folds| - 1;
            var g := f.(folds := f.folds[..n]);
            var h := f.(folds := f.folds[n := x]);
            OpenField(h) == OpenField(g) + "\r\n" + x.lead + x.text && FieldValue(h) == FieldValue(g) + x.text
  {
    var n := |f.folds| - 1;
    var h := f.(folds := f.folds[n := x]);
    assert h.folds[..n] == f.folds[..n];
    assert h.(folds := h.folds[..n]) == f.(folds := f.folds[..n]);
    LastFold(h);
    hide OpenField, FieldValue;
  }

  lemma ExtendText(f: Field, t: string)
    ensures OpenField(Extend(f, t)) == OpenField(f) + t
    ensures FieldValue(Extend(f, t)) == FieldValue(f) + t
  {
    if f.folds != [] {
      var last := f.folds[|f.folds| - 1];
      LastFold(f);
      ReplaceLast(f, last.(text := last.text + t));
      hide OpenField, FieldValue;
    }
  }

  lemma ExtendLeadText(f: Field, x: char)
    requires f.folds != [] && f.folds[|f.folds| - 1].text == ""
    ensures OpenField(ExtendLead(f, x)) == OpenField(f) + [x]
    ensures FieldValue(ExtendLead(f, x)) == FieldValue(f)
  {
    var last := f.folds[|f.folds| - 1];
    LastFold(f);
    ReplaceLast(f, last.(lead := last.lead + [x]));
    hide OpenField, FieldValue;
  }

  lemma StepLws(c: Config, d: Progress, p: string, x: char) returns (e: Progress)
    requires Safe(c) && TracesHeaders(c, d, p) && c.state == HeaderLws && (x == ' ' || x == '\t')
    ensures TracesHeaders(Step(c, x).config, e, p + [x])
  {
    hide RequestLine;
    var n := |d.field.folds| - 1;
    var f := ExtendLead(d.field, x);
    e := d.(field := f);
    ExtendLeadText(d.field, x);
    assert ValidFold(d.field.folds[n]);
    assert ValidFold(f.folds[n]);
    assert forall i | 0 <= i < n :: f.folds[i] == d.field.folds[i];
    assert p + [x] == LinesText(e.m) + OpenField(f);
  }

  lemma ExtendValid(f: Field, x: char)
    requires ValidField(f) && !IsCtl(x)
    requires var n := |f.folds|; n > 0 && f.folds[n - 1].text == "" ==> x != ' '
    ensures ValidField(Extend(f, [x]))
  {
    var n := |f.folds|;
    var g := Extend(f, [x]);
    if n > 0 {
      assert ValidFold(f.folds[n - 1]);
      assert ValidFold(g.folds[n - 1]);
      assert forall i | 0 <= i < n - 1 :: g.folds[i] == f.folds[i];
    }
  }

  lemma StepText(c: Config, d: Progress, p: string, x: char) returns (e: Progress)
    requires Safe(c) && TracesHeaders(c, d, p) && (c.state == HeaderLws || c.state == HeaderValueText)
    requires !IsCtl(x) && (c.state == HeaderLws ==> x != ' ')
    ensures TracesHeaders(Step(c, x).config, e, p + [x])
  {
    hide RequestLine, FieldsText, Headers, OpenField, ValidField;
    e := d.(field := Extend(d.field, [x]));
    ExtendText(d.field, [x]);
    ExtendValid(d.field, x);
    assert p + [x] == LinesText(e.m) + OpenField(e.field);
    hide LinesText;
  }

  lemma StepValue(c: Config, d: Progress, p: string, x: char) returns (e: Progress)
    requires Safe(c) && TracesHeaders(c, d, p) && (c.state == HeaderLws || c.state == HeaderValueText)
    requires Step(c, x).result == Indeterminate
    ensures TracesHeaders(Step(c, x).config, e, p + [x])
  {
    e := d;
    if x == '\r' {
    } else if c.state == HeaderLws && (x == ' ' || x == '\t') {
      e := StepLws(c, d, p, x);
    } else {
      e := StepText(c, d, p, x);
    }
  }

  lemma LinesTextAppend(m: Message, f: Field)
    ensures LinesText(m.(fields := m.fields + [f])) == LinesText(m) + FieldText(f)
  {
    hide RequestLine, FieldsText, FieldText;
    FieldsTextAppend(m.fields, f);
  }

  lemma StepNewline(c: Config, d: Progress, p: string, x: char) returns (e: Progress)
    requires Safe(c) && TracesHeaders(c, d, p) && c.state == Newline2
    requires Step(c, x).result == Indeterminate
    ensures TracesHeaders(Step(c, x).config, e, p + [x])
  {
    hide RequestLine, FieldsText, Headers, OpenField, FieldValue, ValidField, FieldHeader;
    var m := d.m.(fields := d.m.fields + [d.field]);
    e := Progress(m, NO_FIELD);
    FieldsTextAppend(d.m.fields, d.field);
    LinesTextAppend(d.m, d.field);
    assert forall f | f in m.fields :: ValidField(f);
    hide LinesText;
    assert p + [x] == LinesText(d.m) + (OpenField(d.field) + "\r\n");
  }

  /** A finished header block: without a body the message is complete. */
  lemma StepBlankLine(c: Config, d: Progress, p: string, x: char)
    requires Safe(c) && TracesHeaders(c, d, p) && c.state == Newline3
    ensures var r := Step(c, x);
            && (r.result == Indeterminate ==> TracesBody(r.config, d, p + [x]))
            && (r.result == True ==> ValidMessage(d.m) && MessageText(d.m) == p + [x] && Denote(d.m) == r.config.req)
  {
    hide RequestLine, FieldsText, Headers, ContentLength, ValidFields;
    assert p + [x] == LinesText(d.m) + "\r" + [x];
    if x == '\n' {
      assert p + [x] == MessageText(d.m);
    }
  }

  lemma BodyPush(m: Message, x: char)
    ensures MessageText(m.(body := m.body + [x])) == MessageText(m) + [x]
  {
  }

  lemma StepBody(c: Config, d: Progress, p: string, x: char) returns (e: Progress)
    requires Safe(c) && TracesBody(c, d, p)
    ensures var r := Step(c, x);
            && (r.result == Indeterminate ==> TracesBody(r.config, e, p + [x]))
            && (r.result == True ==> ValidMessage(e.m) && MessageText(e.m) == p + [x] && Denote(e.m) == r.config.req)
            && r.result != False
  {
    hide MessageText, RequestLine, FieldsText, Headers, ContentLength, ValidFields;
    e := d.(m := d.m.(body := d.m.body + [x]));
    BodyPush(d.m, x);
  }

  lemma Dispatch(c: Config, d: Progress, p: string)
    requires TracesVersion(c, d, p) || TracesHeaders(c, d, p) || TracesBody(c, d, p)
    ensures Traces(c, d, p)
  {
    hide TracesName, TracesValue, LineRead, Opening, RequestLine, LinesText, MessageText, DecimalValue, ContentLength;
  }

  lemma EndsAfterHeaders(c: Config, x: char)
    requires Safe(c) && Step(c, x).result == True
    ensures c.state == Newline3 || c.state == Body
  {
  }

  /** One more byte inside the header block. */
  lemma StepHeaders(c: Config, d: Progress, p: string, x: char) returns (e: Progress)
    requires Safe(c) && TracesHeaders(c, d, p) && c.state != Newline3
    requires Step(c, x).result == Indeterminate
    ensures TracesHeaders(Step(c, x).config, e, p + [x])
  {
    assert InHeaders(c.state);
    hide Step, TracesHeaders;
    if c.state == HeaderLineStart {
      e := StepLineStart(c, d, p, x);
    } else if c.state == HeaderLws || c.state == HeaderValueText {
      e := StepValue(c, d, p, x);
    } else if c.state == Newline2 {
      e := StepNewline(c, d, p, x);
    } else {
      e := StepName(c, d, p, x);
    }
  }

  /** One more byte: the trace goes on, or it ends in a message. */
  lemma StepTraces(c: Config, d: Progress, p: string, x: char) returns (e: Progress)
    requires Safe(c) && Traces(c, d, p)
    ensures var r := Step(c, x);
            && (r.result == Indeterminate ==> Traces(r.config, e, p + [x]))
            && (r.result == True ==> ValidMessage(e.m) && MessageText(e.m) == p + [x] && Denote(e.m) == r.config.req)
  {
    hide Step, TracesRequestLine, TracesVersion, TracesHeaders, TracesBody, ValidMessage, MessageText, Denote;
    e := d;
    var r := Step(c, x);
    if r.result == True {
      EndsAfterHeaders(c, x);
    }
    if c.state == Body {
      e := StepBody(c, d, p, x);
    } else if c.state == Newline3 {
      StepBlankLine(c, d, p, x);
    } else if r.result == Indeterminate {
      if InRequestLine(c.state) || InOpening(c.state) {
        e := StepRequestLine(c, d, p, x);
      } else if InVersion(c.state) {
        e := StepVersion(c, d, p, x);
      } else {
        e := StepHeaders(c, d, p, x);
      }
    }
    if TracesHeaders(r.config, e, p + [x]) || TracesBody(r.config, e, p + [x]) {
      Dispatch(r.config, e, p + [x]);
    }
  }

  /** After `all` has been offered: the trace of all that was read, or the accepted message. */
  predicate Reached(o: Outcome, e: Progress, all: string) {
    && (o.result == Indeterminate ==> Traces(o.config, e, all))
    && (o.result == True ==> ValidMessage(e.m) && MessageText(e.m) + o.rest == all && Denote(e.m) == o.config.req)
  }

  lemma ReachedNow(c: Config, d: Progress, p: string)
    requires Traces(c, d, p)
    ensures Reached(Outcome(c, Indeterminate, ""), d, p)
  {
  }

  lemma ReachedEnd(r: StepResult, e: Progress, p: string, rest: string)
    requires r.result != Indeterminate
    requires r.result == True ==> ValidMessage(e.m) && MessageText(e.m) == p && Denote(e.m) == r.config.req
    ensures Reached(Outcome(r.config, r.result, rest), e, p + rest)
  {
  }

  lemma {:induction false} FeedTraces(c: Config, d: Progress, p: string, s: string) returns (e: Progress)
    requires Safe(c) && Traces(c, d, p)
    ensures Reached(Feed(c, s), e, p + s)
    decreases |s|
  {
    hide *;
    if s == "" {
      e := d;
      FeedNothing(c);
      assert p + s == p;
      ReachedNow(c, d, p);
    } else {
      e := StepTraces(c, d, p, s[0]);
      FeedStep(c, s);
      var r := Step(c, s[0]);
      assert p + s == p + [s[0]] + s[1..];
      if r.result == Indeterminate {
        e := FeedTraces(r.config, e, p + [s[0]], s[1..]);
      } else {
        ReachedEnd(r, e, p + [s[0]], s[1..]);
      }
    }
  }

  lemma FreshTraces(c: Config) returns (d: Progress)
    requires Fresh(c)
    ensures Safe(c) && Traces(c, d, "")
  {
    d := Progress(Message("", "", "", "", [], ""), NO_FIELD);
  }

  /** The parser accepts messages only, and hands over the request that the message denotes. */
  lemma AcceptsOnlyMessages(c: Config, s: string) returns (m: Message)
    requires Fresh(c) && Feed(c, s).result == True
    ensures ValidMessage(m) && MessageText(m) + Feed(c, s).rest == s
    ensures Denote(m) == Feed(c, s).config.req
  {
    var d := FreshTraces(c);
    d := FeedTraces(c, d, "", s);
    m := d.m;
    assert "" + s == s;
  }
}
