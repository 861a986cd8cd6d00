/** The parser accepts every message, whatever follows it and however it is cut into reads. */
module Completeness {
  import opened Text
  import opened Http
  import opened RequestParser
  import opened Grammar

  /** Parsing `a + b` in one call is parsing `a` and, if that is indeterminate, going on with `b`. */
  lemma {:induction false} FeedConcat(c: Config, a: string, b: string)
    requires Safe(c)
    ensures var o := Feed(c, a);
            Feed(c, a + b) == if o.result == Indeterminate then Feed(o.config, b) else o.(rest := o.rest + b)
    decreases |a|
  {
    hide Step;
    if a == "" {
      assert a + b == b;
    } else {
      assert (a + b)[1..] == a[1..] + b;
      var r := Step(c, a[0]);
      if r.result == Indeterminate {
        FeedConcat(r.config, a[1..], b);
      }
    }
  }

  /** Cutting the input into reads changes nothing: not the result, not the request, not the
      parser, not what is left over. */
  lemma {:induction false} ChunksDoNotMatter(c: Config, chunks: seq<string>)
    requires Safe(c)
    ensures FeedChunks(c, chunks) == Feed(c, Flat(chunks))
    decreases |chunks|
  {
    hide Step, Feed;
    if chunks == [] {
      FeedNothing(c);
    } else {
      FeedConcat(c, chunks[0], Flat(chunks[1..]));
      var o := Feed(c, chunks[0]);
      if o.result == Indeterminate {
        ChunksDoNotMatter(o.config, chunks[1..]);
      }
    }
  }

  /** `t` takes the parser from `c` to `d` and leaves it waiting for more. */
  predicate Reads(c: Config, t: string, d: Config)
    requires Safe(c)
  {
    Safe(d) && Feed(c, t) == Outcome(d, Indeterminate, "")
  }

  lemma ReadsThen(c: Config, t: string, d: Config, u: string, e: Config)
    requires Safe(c) && Reads(c, t, d) && Reads(d, u, e)
    ensures Reads(c, t + u, e)
  {
    hide Step, Feed;
    FeedConcat(c, t, u);
  }

  lemma ReadsNothing(c: Config)
    requires Safe(c)
    ensures Reads(c, "", c)
  {
  }

  lemma ReadsByte(c: Config, x: char)
    requires Safe(c) && Step(c, x).result == Indeterminate
    ensures Reads(c, [x], Step(c, x).config)
  {
    hide Step, Feed;
    FeedStep(c, [x]);
    FeedNothing(Step(c, x).config);
    assert [x][0] == x && [x][1..] == "";
  }

  lemma ReadsThenByte(c: Config, t: string, d: Config, x: char)
    requires Safe(c) && Reads(c, t, d) && Step(d, x).result == Indeterminate
    ensures Reads(c, t + [x], Step(d, x).config)
  {
    hide Step, Feed;
    ReadsByte(d, x);
    ReadsThen(c, t, d, [x], Step(d, x).config);
  }

  /** A byte that settles the matter: everything after it is left over. */
  lemma ReadsThenEnd(c: Config, t: string, d: Config, x: char, rest: string)
    requires Safe(c) && Reads(c, t, d) && Step(d, x).result != Indeterminate
    ensures Feed(c, t + [x] + rest) == Outcome(Step(d, x).config, Step(d, x).result, rest)
  {
    hide Step, Feed;
    FeedConcat(c, t, [x] + rest);
    assert t + [x] + rest == t + ([x] + rest);
    FeedStep(d, [x] + rest);
    assert ([x] + rest)[1..] == rest;
  }

  function AtMethod(c: Config, t: string): Config {
    c.(state := Method, req := c.req.(method_ := t))
  }

  lemma {:induction false} ReadMethod(c: Config, t: string)
    requires c.state == MethodStart && c.req.method_ == "" && IsToken(t)
    ensures Reads(c, t, AtMethod(c, t))
    decreases |t|
  {
    hide Feed, Reads;
    var n := |t| - 1;
    assert t == t[..n] + [t[n]];
    if n == 0 {
      assert t[..n] == "";
      ReadsNothing(c);
      ReadsThenByte(c, "", c, t[0]);
    } else {
      ReadMethod(c, t[..n]);
      ReadsThenByte(c, t[..n], AtMethod(c, t[..n]), t[n]);
    }
  }

  function AtUri(c: Config, t: string): Config {
    c.(state := Uri, req := c.req.(uri := t))
  }

  lemma {:induction false} ReadUri(c: Config, t: string)
    requires c.state == Uri && c.req.uri == "" && IsUri(t)
    ensures Reads(c, t, AtUri(c, t))
    decreases |t|
  {
    hide Feed, Reads;
    if t == "" {
      ReadsNothing(c);
    } else {
      var n := |t| - 1;
      assert t == t[..n] + [t[n]];
      ReadUri(c, t[..n]);
      ReadsThenByte(c, t[..n], AtUri(c, t[..n]), t[n]);
    }
  }

  function AtMajor(c: Config, major: int): Config {
    c.(state := Major, req := c.req.(major := major))
  }

  lemma {:induction false} ReadMajor(c: Config, t: string)
    requires c.state == MajorStart && c.req.major == 0 && IsNumeral(t)
    ensures Reads(c, t, AtMajor(c, DecimalValue(t)))
    decreases |t|
  {
    hide Feed, Reads;
    var n := |t| - 1;
    assert t == t[..n] + [t[n]];
    if n == 0 {
      assert t[..n] == "" && DecimalValue("") == 0;
      ReadsNothing(c);
      ReadsThenByte(c, "", c, t[0]);
    } else {
      ReadMajor(c, t[..n]);
      ReadsThenByte(c, t[..n], AtMajor(c, DecimalValue(t[..n])), t[n]);
    }
  }

  function AtMinor(c: Config, minor: int): Config {
    c.(state := Minor, req := c.req.(minor := minor))
  }

  lemma {:induction false} ReadMinor(c: Config, t: string)
    requires c.state == MinorStart && c.req.minor == 0 && IsNumeral(t)
    ensures Reads(c, t, AtMinor(c, DecimalValue(t)))
    decreases |t|
  {
    hide Feed, Reads;
    var n := |t| - 1;
    assert t == t[..n] + [t[n]];
    if n == 0 {
      assert t[..n] == "" && DecimalValue("") == 0;
      ReadsNothing(c);
      ReadsThenByte(c, "", c, t[0]);
    } else {
      ReadMinor(c, t[..n]);
      ReadsThenByte(c, t[..n], AtMinor(c, DecimalValue(t[..n])), t[n]);
    }
  }

  lemma ReadVersionWord(c: Config)
    requires c.state == VersionH
    ensures Reads(c, "HTTP/", c.(state := MajorStart, req := c.req.(major := 0, minor := 0)))
  {
    hide Feed, Reads;
    ReadsByte(c, 'H');
    ReadsThenByte(c, "H", c.(state := VersionT1), 'T');
    assert "H" + ['T'] == "HT";
    ReadsThenByte(c, "HT", c.(state := VersionT2), 'T');
    assert "HT" + ['T'] == "HTT";
    ReadsThenByte(c, "HTT", c.(state := VersionP), 'P');
    assert "HTT" + ['P'] == "HTTP";
    ReadsThenByte(c, "HTTP", c.(state := VersionSlash), '/');
    assert "HTTP" + ['/'] == "HTTP/";
  }

  /** The configuration after the request line and some headers. */
  function AtLine(c: Config, s: State, m: Message, hs: seq<Header>): Config {
    c.(state := s, req := RequestValue(m.method_, m.uri, DecimalValue(m.major), DecimalValue(m.minor), hs, ""))
  }

  lemma ReadVersion(c: Config, major: string, minor: string)
    requires c.state == VersionH && IsNumeral(major) && IsNumeral(minor)
    ensures Reads(c, "HTTP/" + major + "." + minor + "\r\n",
                  c.(state := HeaderLineStart,
                     req := c.req.(major := DecimalValue(major), minor := DecimalValue(minor))))
  {
    hide Feed, Reads;
    ReadVersionWord(c);
    var c1 := c.(state := MajorStart, req := c.req.(major := 0, minor := 0));
    ReadMajor(c1, major);
    var c2 := AtMajor(c1, DecimalValue(major));
    ReadsThen(c, "HTTP/", c1, major, c2);
    ReadsThenByte(c, "HTTP/" + major, c2, '.');
    var c3 := c2.(state := MinorStart);
    ReadMinor(c3, minor);
    var c4 := AtMinor(c3, DecimalValue(minor));
    ReadsThen(c, "HTTP/" + major + ".", c3, minor, c4);
    ReadsThenByte(c, "HTTP/" + major + "." + minor, c4, '\r');
    ReadsThenByte(c, "HTTP/" + major + "." + minor + "\r", c4.(state := Newline1), '\n');
    assert "HTTP/" + major + "." + minor + "\r" + ['\n'] == "HTTP/" + major + "." + minor + "\r\n";
  }

  lemma ReadTarget(c: Config, method_: string, uri: string)
    requires Fresh(c) && IsToken(method_) && IsUri(uri)
    ensures Reads(c, method_ + " " + uri + " ", c.(state := VersionH, req := c.req.(method_ := method_, uri := uri)))
  {
    hide Feed, Reads;
    ReadMethod(c, method_);
    var c1 := AtMethod(c, method_);
    ReadsThenByte(c, method_, c1, ' ');
    var c2 := c1.(state := Uri);
    ReadUri(c2, uri);
    var c3 := AtUri(c2, uri);
    ReadsThen(c, method_ + " ", c2, uri, c3);
    ReadsThenByte(c, method_ + " " + uri, c3, ' ');
  }

  lemma ReadRequestLine(c: Config, m: Message)
    requires Fresh(c) && IsToken(m.method_) && IsUri(m.uri) && IsNumeral(m.major) && IsNumeral(m.minor)
    ensures Reads(c, RequestLine(m.method_, m.uri, m.major, m.minor), AtLine(c, HeaderLineStart, m, []))
  {
    hide Feed, Reads, Step, DecimalValue;
    ReadTarget(c, m.method_, m.uri);
    var c1 := c.(state := VersionH, req := c.req.(method_ := m.method_, uri := m.uri));
    ReadVersion(c1, m.major, m.minor);
    var t := m.method_ + " " + m.uri + " ";
    var u := "HTTP/" + m.major + "." + m.minor + "\r\n";
    ReadsThen(c, t, c1, u, AtLine(c, HeaderLineStart, m, []));
    assert RequestLine(m.method_, m.uri, m.major, m.minor) == t + u;
  }

  function AtHeader(c: Config, s: State, hs: seq<Header>): Config {
    c.(state := s, req := c.req.(headers := hs))
  }

  lemma {:induction false} ReadName(c: Config, t: string)
    requires c.state == HeaderLineStart && IsToken(t)
    ensures Reads(c, t, AtHeader(c, HeaderName, c.req.headers + [Header(Lower(t), "")]))
    decreases |t|
  {
    hide Feed, Reads;
    var n := |t| - 1;
    assert t == t[..n] + [t[n]];
    if n == 0 {
      assert t[..n] == "" && Lower(t) == [ToLower(t[0])];
      ReadsNothing(c);
      ReadsThenByte(c, "", c, t[0]);
    } else {
      ReadName(c, t[..n]);
      var d := AtHeader(c, HeaderName, c.req.headers + [Header(Lower(t[..n]), "")]);
      ReadsThenByte(c, t[..n], d, t[n]);
      assert Lower(t) == Lower(t[..n]) + [ToLower(t[n])];
      assert PushName(d.req.headers, t[n]) == c.req.headers + [Header(Lower(t), "")];
    }
  }

  /** Header value text, appended to the last header `h`. */
  lemma {:induction false} ReadText(c: Config, hs: seq<Header>, h: Header, t: string)
    requires c.state == HeaderValueText && c.req.headers == hs + [h] && IsText(t)
    ensures Reads(c, t, AtHeader(c, HeaderValueText, hs + [h.(value := h.value + t)]))
    decreases |t|
  {
    hide Feed, Reads;
    if t == "" {
      ReadsNothing(c);
      assert h.value + t == h.value;
    } else {
      var n := |t| - 1;
      assert t == t[..n] + [t[n]];
      ReadText(c, hs, h, t[..n]);
      var d := AtHeader(c, HeaderValueText, hs + [h.(value := h.value + t[..n])]);
      ReadsThenByte(c, t[..n], d, t[n]);
      assert h.value + t == h.value + t[..n] + [t[n]];
      assert PushValue(d.req.headers, t[n]) == hs + [h.(value := h.value + t)];
    }
  }

  lemma {:induction false} ReadBlanks(c: Config, t: string)
    requires c.state == HeaderLineStart && c.req.headers != [] && t != "" && Blanks(t)
    ensures Reads(c, t, c.(state := HeaderLws))
    decreases |t|
  {
    hide Feed, Reads;
    var n := |t| - 1;
    assert t == t[..n] + [t[n]];
    if n == 0 {
      assert t[..n] == "";
      ReadsNothing(c);
      ReadsThenByte(c, "", c, t[0]);
    } else {
      ReadBlanks(c, t[..n]);
      ReadsThenByte(c, t[..n], c.(state := HeaderLws), t[n]);
    }
  }

  /** Where the parser is at the end of a field that is still open. */
  function OpenState(f: Field): State {
    if f.folds == [] || f.folds[|f.folds| - 1].text != "" then HeaderValueText else HeaderLws
  }

  lemma ReadLineBreak(c: Config)
    requires c.state == HeaderValueText || c.state == HeaderLws
    requires Safe(c)
    ensures Reads(c, "\r\n", c.(state := HeaderLineStart))
  {
    hide Feed, Reads;
    ReadsByte(c, '\r');
    ReadsThenByte(c, "\r", c.(state := Newline2), '\n');
    assert "\r" + ['\n'] == "\r\n";
  }

  /** A continuation line without its line break, behind the complete header `h`. */
  lemma ReadFold(c: Config, hs: seq<Header>, h: Header, f: Fold)
    requires c.state == HeaderLineStart && c.req.headers == hs + [h] && ValidFold(f)
    ensures Reads(c, f.lead + f.text,
                  AtHeader(c, if f.text == "" then HeaderLws else HeaderValueText,
                           hs + [h.(value := h.value + f.text)]))
  {
    hide Feed, Reads;
    ReadBlanks(c, f.lead);
    var d := c.(state := HeaderLws);
    if f.text == "" {
      assert f.lead + f.text == f.lead && h.value + f.text == h.value;
    } else {
      var x, t := f.text[0], f.text[1..];
      assert x != '\r' && x != '\t';
      ReadsThenByte(c, f.lead, d, x);
      var g := h.(value := h.value + [x]);
      var e := AtHeader(c, HeaderValueText, hs + [g]);
      assert PushValue(hs + [h], x) == hs + [g];
      ReadText(e, hs, g, t);
      assert h.value + f.text == g.value + t;
      ReadsThen(c, f.lead + [x], e, t, AtHeader(c, HeaderValueText, hs + [h.(value := h.value + f.text)]));
      assert f.lead + [x] + t == f.lead + f.text;
    }
  }

  lemma ReadFirstLine(c: Config, f: Field)
    requires c.state == HeaderLineStart && ValidField(f) && f.folds == []
    ensures Reads(c, OpenField(f), AtHeader(c, OpenState(f), c.req.headers + [FieldHeader(f)]))
  {
    hide Feed, Reads;
    var hs := c.req.headers;
    var h := Header(Lower(f.name), "");
    ReadName(c, f.name);
    var c1 := AtHeader(c, HeaderName, hs + [h]);
    ReadsThenByte(c, f.name, c1, ':');
    ReadsThenByte(c, f.name + ":", c1.(state := SpaceBeforeValue), ' ');
    assert f.name + ":" + [' '] == f.name + ": ";
    var c2 := c1.(state := HeaderValueText);
    ReadText(c2, hs, h, f.value);
    assert "" + f.value == f.value;
    ReadsThen(c, f.name + ": ", c2, f.value, AtHeader(c, HeaderValueText, hs + [FieldHeader(f)]));
  }

  lemma {:induction false} ReadOpenField(c: Config, f: Field)
    requires c.state == HeaderLineStart && ValidField(f)
    ensures Reads(c, OpenField(f), AtHeader(c, OpenState(f), c.req.headers + [FieldHeader(f)]))
    decreases |f.folds|
  {
    hide Feed, Reads, Step;
    var n := |f.folds|;
    if n == 0 {
      ReadFirstLine(c, f);
    } else {
      var hs, g, last := c.req.headers, f.(folds := f.folds[..n - 1]), f.folds[n - 1];
      ReadOpenField(c, g);
      var c1 := AtHeader(c, OpenState(g), hs + [FieldHeader(g)]);
      ReadLineBreak(c1);
      var c2 := c1.(state := HeaderLineStart);
      ReadsThen(c, OpenField(g), c1, "\r\n", c2);
      ReadFold(c2, hs, FieldHeader(g), last);
      ReadsThen(c, OpenField(g) + "\r\n", c2, last.lead + last.text, AtHeader(c, OpenState(f), hs + [FieldHeader(f)]));
      assert OpenField(f) == OpenField(g) + "\r\n" + (last.lead + last.text);
    }
  }

  lemma {:induction false} ReadFields(c: Config, fs: seq<Field>)
    requires c.state == HeaderLineStart && c.req.headers == [] && ValidFields(fs)
    ensures Reads(c, FieldsText(fs), AtHeader(c, HeaderLineStart, Headers(fs)))
    decreases |fs|
  {
    hide Feed, Reads, Step, OpenField, FieldValue;
    if fs == [] {
      ReadsNothing(c);
    } else {
      var n := |fs| - 1;
      var f, hs := fs[n], Headers(fs[..n]);
      ReadFields(c, fs[..n]);
      var c1 := AtHeader(c, HeaderLineStart, hs);
      ReadOpenField(c1, f);
      var c2 := AtHeader(c, OpenState(f), hs + [FieldHeader(f)]);
      ReadLineBreak(c2);
      var c3 := AtHeader(c, HeaderLineStart, hs + [FieldHeader(f)]);
      ReadsThen(c1, OpenField(f), c2, "\r\n", c3);
      ReadsThen(c, FieldsText(fs[..n]), c1, FieldText(f), c3);
    }
  }

  function AtBody(c: Config, left: Uint32, body: string): Config {
    c.(state := Body, bodyBytes := left, req := c.req.(content := body))
  }

  lemma {:induction false} ReadBody(c: Config, t: string)
    requires c.state == Body && c.req.content == "" && |t| < c.bodyBytes
    ensures Reads(c, t, AtBody(c, c.bodyBytes - |t|, t))
    decreases |t|
  {
    hide Feed, Reads;
    if t == "" {
      ReadsNothing(c);
    } else {
      var n := |t| - 1;
      assert t == t[..n] + [t[n]];
      ReadBody(c, t[..n]);
      ReadsThenByte(c, t[..n], AtBody(c, c.bodyBytes - n, t[..n]), t[n]);
    }
  }

  lemma ReadLines(c: Config, m: Message)
    requires Fresh(c) && IsToken(m.method_) && IsUri(m.uri) && IsNumeral(m.major) && IsNumeral(m.minor)
    requires ValidFields(m.fields)
    ensures Reads(c, LinesText(m) + "\r", AtLine(c, Newline3, m, Headers(m.fields)))
  {
    hide Feed, Reads, RequestLine, FieldsText, Headers, DecimalValue;
    ReadRequestLine(c, m);
    var c1 := AtLine(c, HeaderLineStart, m, []);
    ReadFields(c1, m.fields);
    var c2 := AtLine(c, HeaderLineStart, m, Headers(m.fields));
    ReadsThen(c, RequestLine(m.method_, m.uri, m.major, m.minor), c1, FieldsText(m.fields), c2);
    ReadsThenByte(c, LinesText(m), c2, '\r');
  }

  /** Every message is accepted: the parser consumes exactly its text and produces the request
      that it denotes. */
  lemma AcceptsMessages(c: Config, m: Message, rest: string)
    requires Fresh(c) && ValidMessage(m)
    ensures Safe(c)
    ensures var o := Feed(c, MessageText(m) + rest);
            o.result == True && o.rest == rest && o.config.req == Denote(m)
  {
    hide Feed, Reads, LinesText, Headers, DecimalValue, ContentLength;
    ReadLines(c, m);
    var hs := Headers(m.fields);
    var c1 := AtLine(c, Newline3, m, hs);
    var t := LinesText(m) + "\r";
    if m.body == "" {
      ReadsThenEnd(c, t, c1, '\n', rest);
      assert MessageText(m) + rest == t + ['\n'] + rest;
    } else {
      ReadsThenByte(c, t, c1, '\n');
      var c2 := AtBody(c1, |m.body|, "");
      var n := |m.body| - 1;
      ReadBody(c2, m.body[..n]);
      var c3 := AtBody(c1, 1, m.body[..n]);
      ReadsThen(c, t + ['\n'], c2, m.body[..n], c3);
      ReadsThenEnd(c, t + ['\n'] + m.body[..n], c3, m.body[n], rest);
      assert m.body[..n] + [m.body[n]] == m.body;
      assert MessageText(m) + rest == t + ['\n'] + m.body[..n] + [m.body[n]] + rest;
    }
  }
}
