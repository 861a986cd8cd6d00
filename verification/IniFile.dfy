/** The line loop of `ini_parse_file` and the reader that it feeds. */
module IniFile {
  import opened Text
  import opened Ini
  import opened IniBuffer

  /** The line from `start` on is the text that the pure parser sees. */
  lemma MarkedAt(a: seq<char>)
    requires Terminated(a, 0) && |a| >= 3
    ensures (a[0] as int == 0xEF && a[1] as int == 0xBB && a[2] as int == 0xBF) <==> Marked(StrAt(a, 0))
  {
    StrFacts(a, 0);
    hide UptoNul;
    var t := StrAt(a, 0);
    assert a[0 + 0] == At(t, 0);
    if |t| >= 1 {
      assert a[0 + 1] == At(t, 1);
    }
    if |t| >= 2 {
      assert a[0 + 2] == At(t, 2);
    }
  }

  lemma MarkedIsLong(s: string)
    requires Marked(s)
    ensures |s| >= 3
  {
  }

  /** Skips a byte order mark in the first line and trims the line. */
  method TrimLine(line: array<char>, lineno: nat, ghost text: string) returns (start: nat)
    requires line.Length == INI_MAX_LINE && Terminated(line[..], 0) && StrAt(line[..], 0) == UptoNul(text)
    modifies line
    ensures Terminated(line[..], start)
    ensures var s := Unmarked(text, lineno);
            && StrAt(line[..], start) == SkipSpaces(StripRight(s))
            && (start > 0 <==> |s| < |UptoNul(text)| || |StrAt(line[..], start)| < |StripRight(s)|)
  {
    hide UptoNul, StripRight, SkipSpaces, StrAt, Terminated, Marked;
    start := 0;
    MarkedAt(line[..]);
    ghost var s := UptoNul(text);
    if lineno == 1 && line[0] as int == 0xEF && line[1] as int == 0xBB && line[2] as int == 0xBF {
      MarkedIsLong(s);
      StrFrom(line[..], 0, 3);
      start := 3;
    }
    RStrip(line, start);
    start := LSkip(line, start);
  }

  lemma TerminatedBound(a: seq<char>, p: nat)
    requires Terminated(a, p)
    ensures p <= |a| && p + |StrAt(a, p)| < |a|
  {
  }

  /** The section name of a line that starts with `[`, or nothing when `]` is missing. */
  method ParseSection(line: array<char>, start: nat) returns (ok: bool, name: string)
    requires Terminated(line[..], start) && StrAt(line[..], start) != ""
    modifies line
    ensures var t := old(StrAt(line[..], start))[1..];
            var i := Scan(t, ']', false);
            ok == (At(t, i) == ']') && (ok ==> name == t[..i])
  {
    hide UptoNul, StrAt, Terminated, Scan, At;
    ghost var t := StrAt(line[..], start)[1..];
    StrFrom(line[..], start, 1);
    StrFacts(line[..], start + 1);
    TerminatedBound(line[..], start + 1);
    var end := FindCharOrComment(line, start + 1, ']');
    ghost var i := end - (start + 1);
    assert line[..][start + 1 + i] == At(t, i);
    ok, name := false, "";
    if line[end] == ']' {
      StrCut(line[..], line[..][end := NUL], start + 1, i);
      line[end] := NUL;
      ok, name := true, StrAt(line[..], start + 1);
    }
  }

  /** The offset of the separator of a name-value line. */
  method FindSeparator(line: array<char>, start: nat) returns (end: nat)
    requires Terminated(line[..], start)
    ensures end == start + Separator(StrAt(line[..], start)) && end < line.Length
    ensures line[end] == At(StrAt(line[..], start), end - start)
  {
    hide UptoNul, StrAt, Terminated, Scan, At;
    TerminatedBound(line[..], start);
    ghost var t := StrAt(line[..], start);
    StrFacts(line[..], start);
    end := FindCharOrComment(line, start, '=');
    assert line[..][start + (end - start)] == At(t, end - start);
    if line[end] != '=' {
      end := FindCharOrComment(line, start, ':');
      assert line[..][start + (end - start)] == At(t, end - start);
    }
  }

  /** Removes the comment and the white space around a value. */
  method ParseValue(line: array<char>, from: nat) returns (value: nat)
    requires Terminated(line[..], from)
    modifies line
    ensures from <= value <= line.Length && line[..from] == old(line[..from])
    ensures Terminated(line[..], value) && StrAt(line[..], value) == ValueText(old(StrAt(line[..], from)))
  {
    hide UptoNul, StrAt, Terminated, Scan, At, SkipSpaces, StripRight;
    ghost var a := line[..];
    value := LSkip(line, from);
    ghost var v := StrAt(line[..], value);
    StrFacts(line[..], value);
    TerminatedBound(line[..], value);
    var end := FindCharOrComment(line, value, NUL);
    ghost var i := end - value;
    assert line[..][value + i] == At(v, i);
    if line[end] == ';' {
      StrCut(line[..], line[..][end := NUL], value, i);
      line[end] := NUL;
    }
    assert line[..from] == a[..from];
    ghost var b := line[..];
    RStrip(line, value);
    assert line[..from] == line[..value][..from] == b[..value][..from] == a[..from];
  }

  /** A string behind a changed part of the buffer. */
  lemma Behind(a: seq<char>, b: seq<char>, p: nat)
    requires |a| == |b| && Terminated(a, p) && 0 < p && a[p..] == b[p..]
    ensures Terminated(b, p) && StrAt(b, p) == StrAt(a, p)
  {
  }

  /** A string in front of a changed part. */
  lemma Before(a: seq<char>, b: seq<char>, p: nat, end: nat)
    requires |a| == |b| && p < end <= |a| && a[..end] == b[..end]
    requires Terminated(a, p) && p + |StrAt(a, p)| < end
    ensures Terminated(b, p) && StrAt(b, p) == StrAt(a, p)
  {
    hide UptoNul;
    var n := p + |StrAt(a, p)| + 1;
    assert a[p..n] == a[..end][p..n] == b[..end][p..n] == b[p..n];
    StrSame(a, b, p);
  }

  /** Cuts the line at the separator and trims both sides. */
  method ParseNameValue(line: array<char>, start: nat, end: nat) returns (name: string, value: string)
    requires Terminated(line[..], start)
    requires end == start + Separator(StrAt(line[..], start)) && end < start + |StrAt(line[..], start)|
    modifies line
    ensures var t := old(StrAt(line[..], start));
            var i := Separator(t);
            i < |t| && name == StripRight(t[..i]) && value == ValueText(t[i + 1..])
  {
    hide UptoNul, StrAt, Terminated, Separator, StripRight, ValueText;
    ghost var a := line[..];
    ghost var t := StrAt(a, start);
    ghost var i := end - start;
    TerminatedBound(a, start);
    StrFrom(a, start, i + 1);
    StrCut(a, a[end := NUL], start, i);
    line[end] := NUL;
    ghost var b := line[..];
    assert b == a[end := NUL];
    Behind(a, b, end + 1);
    RStrip(line, start);
    ghost var c := line[..];
    assert c[end..] == b[end..];
    Behind(b, c, end + 1);
    var v := ParseValue(line, end + 1);
    Before(c, line[..], start, end + 1);
    name, value := StrAt(line[..], start), StrAt(line[..], v);
  }

  lemma {:induction false} HandleConcat(values: Values, a: seq<Call>, b: seq<Call>)
    ensures HandleAll(values, a + b) == HandleAll(HandleAll(values, a), b)
    decreases |b|
  {
    hide Handle;
    if b == [] {
      assert a + b == a;
    } else {
      var n := |b| - 1;
      assert (a + b)[..|a| + n] == a + b[..n];
      HandleConcat(values, a, b[..n]);
    }
  }

  lemma HandleOne(values: Values, c: Call)
    ensures HandleAll(values, [c]) == Handle(values, c)
  {
    hide Handle;
    assert [c][..0] == [];
    assert HandleAll(values, []) == values;
  }

  /** The loop variables of `ini_parse_file` between two lines. */
  datatype Loop = Loop(section: string, prevName: string, error: nat)

  function LoopOf(st: FileState): Loop {
    Loop(st.section, st.prevName, st.error)
  }

  function StateOf(l: Loop, lineno: nat): FileState {
    FileState(lineno, l.section, l.prevName, l.error, [])
  }

  method CallHandler(reader: Reader, section: string, name: string, value: string, lineno: int, error: int)
    returns (newError: int)
    modifies reader`values
    ensures newError == error
    ensures reader.values == HandleAll(old(reader.values), [Call(section, name, value)])
  {
    HandleOne(reader.values, Call(section, name, value));
    var accepted := reader.ValueHandler(section, name, value);
    newError := if !accepted && error == 0 then lineno else error;
  }

  lemma NoneBefore(c: Call)
    ensures [] + [c] == [c]
  {
  }

  lemma NoCalls(values: Values)
    ensures HandleAll(values, []) == values
  {
  }

  /** A trimmed line contains no NUL, so a NUL in front means an empty line. */
  lemma AtStart(t: string)
    requires NUL !in t
    ensures At(t, 0) == NUL <==> t == ""
  {
  }

  lemma AtEnd(t: string, i: nat)
    requires i <= |t|
    ensures At(t, i) != NUL ==> i < |t|
  {
  }

  /** The body of the loop for the line in the buffer. */
  method ParseLine(line: array<char>, lineno: nat, l: Loop, reader: Reader, ghost text: string) returns (m: Loop)
    requires line.Length == INI_MAX_LINE && Terminated(line[..], 0) && StrAt(line[..], 0) == UptoNul(text)
    requires lineno > 0
    modifies line, reader`values
    ensures var st := FileStep(StateOf(l, lineno - 1), text);
            m == LoopOf(st) && reader.values == HandleAll(old(reader.values), st.calls)
  {
    hide UptoNul, StrAt, Terminated, Scan, At, SkipSpaces;
    hide StripRight, ValueText, Separator, Unmarked, HandleAll, Truncate;
    ghost var state := StateOf(l, lineno - 1);
    m := l;
    NoCalls(reader.values);
    var start := TrimLine(line, lineno, text);
    TerminatedBound(line[..], start);
    StrFacts(line[..], start);
    ghost var t := StrAt(line[..], start);
    ghost var kind := KindOf(state, text);
    assert kind == Classify(t, start > 0, l.prevName);
    assert line[..][start + 0] == At(t, 0);
    AtStart(t);
    if line[start] == ';' || line[start] == '#' {
      assert kind == Ignored;
    } else if l.prevName != "" && line[start] != NUL && start > 0 {
      assert kind == Continuation(t);
      NoneBefore(Call(l.section, l.prevName, t));
      var error := CallHandler(reader, l.section, l.prevName, StrAt(line[..], start), lineno, l.error);
      m := l.(error := error);
    } else if line[start] == '[' {
      var ok, name := ParseSection(line, start);
      if ok {
        assert kind == SectionLine(name);
        m := l.(section := Truncate(name, MAX_SECTION), prevName := "");
      } else if l.error == 0 {
        assert kind == Malformed;
        m := l.(error := lineno);
      }
    } else if line[start] != NUL {
      var end := FindSeparator(line, start);
      AtEnd(t, end - start);
      if line[end] == '=' || line[end] == ':' {
        var name, value := ParseNameValue(line, start, end);
        assert kind == NameValue(name, value);
        NoneBefore(Call(l.section, name, value));
        var error := CallHandler(reader, l.section, name, value, lineno, l.error);
        m := l.(prevName := Truncate(name, MAX_NAME), error := error);
      } else if l.error == 0 {
        assert kind == Malformed;
        m := l.(error := lineno);
      }
    }
  }

  lemma StepFrom(st: FileState, line: string)
    ensures var a, b := FileStep(st, line), FileStep(StateOf(LoopOf(st), st.lineno), line);
            && LoopOf(a) == LoopOf(b) && a.lineno == b.lineno == st.lineno + 1
            && a.calls == st.calls + b.calls
  {
    hide Classify, Unmarked, Truncate;
    assert KindOf(st, line) == KindOf(StateOf(LoopOf(st), st.lineno), line);
  }

  /** Reads a whole file. The result code and the calls of the handler are those of the pure
      parser. */
  method ParseFile(text: string, reader: Reader) returns (error: nat)
    modifies reader`values
    ensures error == FileRun(START, text).error
    ensures reader.values == HandleAll(old(reader.values), FileRun(START, text).calls)
  {
    hide FileStep, HandleAll, Chunk, UptoNul, StrAt, Terminated;
    var line := new char[INI_MAX_LINE];
    var l := Loop("", "", 0);
    var lineno := 0;
    var pos := 0;
    ghost var st, rest := START, text;
    NoCalls(reader.values);
    while pos < |text|
      invariant pos <= |text| && rest == text[pos..]
      invariant st.lineno == lineno && LoopOf(st) == l
      invariant FileRun(st, rest) == FileRun(START, text)
      invariant reader.values == HandleAll(old(reader.values), st.calls)
      decreases |text| - pos
    {
      var n := FGets(line, text[pos..]);
      ghost var chunk := Chunk(rest);
      lineno := lineno + 1;
      StepFrom(st, chunk);
      l := ParseLine(line, lineno, l, reader, chunk);
      HandleConcat(old(reader.values), st.calls, FileStep(StateOf(LoopOf(st), st.lineno), chunk).calls);
      st := FileStep(st, chunk);
      assert rest[n..] == text[pos + n..];
      pos := pos + n;
      rest := rest[n..];
    }
    return l.error;
  }

  /** A file that `fopen` cannot open, or its text. */
  datatype File = Missing | Contents(text: string)

  /** The constructor of the reader. */
  method ReadFile(file: File) returns (reader: Reader)
    ensures fresh(reader)
    ensures file.Missing? ==> reader.error == -1 && reader.values == map[]
    ensures file.Contents? ==> reader.error == FileRun(START, file.text).error
    ensures file.Contents? ==> reader.values == HandleAll(map[], FileRun(START, file.text).calls)
  {
    hide *;
    reader := new Reader();
    if file.Missing? {
      reader.error := -1;
    } else {
      var error := ParseFile(file.text, reader);
      reader.error := error;
    }
  }
}
