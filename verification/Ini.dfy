/** The INI line parser as a function of the file text (src/ini.c), and the reader that
    collects the values (src/INIReader.cpp).

    `IniBuffer` has the program's form, with the edits of the line buffer. */
module Ini {
  import opened Text

  const INI_MAX_LINE := 200
  const MAX_SECTION := 50
  const MAX_NAME := 50

  function Upto(text: string, limit: nat): (line: string)
    ensures |line| <= |text| && |line| <= limit
    ensures text != "" && limit > 0 ==> line != ""
  {
    if text == "" || limit == 0 then ""
    else if text[0] == '\n' then "\n"
    else [text[0]] + Upto(text[1..], limit - 1)
  }

  /** What `fgets` reads: through the next line feed, but at most `INI_MAX_LINE - 1` bytes. */
  function Chunk(text: string): (line: string)
    ensures |line| <= |text| && |line| < INI_MAX_LINE
    ensures text != "" ==> line != ""
  {
    Upto(text, INI_MAX_LINE - 1)
  }

  /** The C string at the start of a buffer. */
  function UptoNul(s: string): (t: string)
    ensures t <= s && '\0' !in t
    ensures |t| < |s| ==> s[|t|] == '\0'
  {
    if s == "" || s[0] == '\0' then "" else [s[0]] + UptoNul(s[1..])
  }

  function StripRight(s: string): (t: string)
    ensures t <= s
  {
    if s != "" && IsSpace(s[|s| - 1]) then StripRight(s[..|s| - 1]) else s
  }

  /** `find_char_or_comment`: the offset of the first `c`, or of a `;` behind white space, or of
      the end. `white` tells whether white space came before. */
  function Scan(s: string, c: char, white: bool): (i: nat)
    ensures i <= |s|
  {
    if s == "" || s[0] == c || (white && s[0] == ';') then 0
    else 1 + Scan(s[1..], c, IsSpace(s[0]))
  }

  /** `strncpy0`: at most `size - 1` bytes are kept. */
  function Truncate(s: string, size: nat): (t: string)
    requires size > 0
  {
    if |s| < size then s else s[..size - 1]
  }

  predicate Marked(s: string) {
    |s| >= 3 && s[0] as int == 0xEF && s[1] as int == 0xBB && s[2] as int == 0xBF
  }

  /** A call of the handler. */
  datatype Call = Call(section: string, name: string, value: string)

  datatype FileState = FileState(lineno: nat, section: string, prevName: string, error: nat, calls: seq<Call>)

  const START := FileState(0, "", "", 0, [])

  /** What a line is to the parser. */
  datatype LineKind =
    | Ignored
    | Continuation(text: string)
    | SectionLine(name: string)
    | NameValue(name: string, value: string)
    | Malformed

  function At(s: string, i: nat): char {
    if i < |s| then s[i] else '\0'
  }

  /** The offset of the separator: the first `=`, else the first `:`, before a comment. */
  function Separator(t: string): (i: nat)
    ensures i <= |t|
  {
    var i := Scan(t, '=', false);
    if At(t, i) == '=' then i else Scan(t, ':', false)
  }

  /** The value part without its comment and the white space around it. */
  function ValueText(s: string): string {
    var v := SkipSpaces(s);
    var i := Scan(v, '\0', false);
    StripRight(if At(v, i) == ';' then v[..i] else v)
  }

  /** `t` is the trimmed line, `moved` tells whether anything was skipped in front of it. */
  function Classify(t: string, moved: bool, prevName: string): LineKind {
    if At(t, 0) == ';' || At(t, 0) == '#' then Ignored
    else if prevName != "" && t != "" && moved then Continuation(t)
    else if At(t, 0) == '[' then
      var i := Scan(t[1..], ']', false);
      if At(t[1..], i) == ']' then SectionLine(t[1..][..i]) else Malformed
    else if t != "" then
      var i := Separator(t);
      if At(t, i) == '=' || At(t, i) == ':' then NameValue(StripRight(t[..i]), ValueText(t[i + 1..]))
      else Malformed
    else Ignored
  }

  /** The text of a line behind the byte order mark of the first line. */
  function Unmarked(line: string, lineno: nat): string {
    var s := UptoNul(line);
    if lineno == 1 && Marked(s) then s[3..] else s
  }

  function KindOf(st: FileState, line: string): LineKind {
    var s := Unmarked(line, st.lineno + 1);
    var t := SkipSpaces(StripRight(s));
    Classify(t, |s| < |UptoNul(line)| || |t| < |StripRight(s)|, st.prevName)
  }

  function FileStep(st: FileState, line: string): FileState {
    var next := st.(lineno := st.lineno + 1);
    match KindOf(st, line)
    case Ignored => next
    case Continuation(text) => next.(calls := st.calls + [Call(st.section, st.prevName, text)])
    case SectionLine(name) => next.(section := Truncate(name, MAX_SECTION), prevName := "")
    case NameValue(name, value) =>
      next.(prevName := Truncate(name, MAX_NAME), calls := st.calls + [Call(st.section, name, value)])
    case Malformed => if st.error == 0 then next.(error := next.lineno) else next
  }

  /** `ini_parse_file`; the handler is taken to accept every call, as the reader's does. */
  function FileRun(st: FileState, text: string): FileState
    decreases |text|
  {
    if text == "" then st
    else FileRun(FileStep(st, Chunk(text)), text[|Chunk(text)|..])
  }

  /** The pieces that `fgets` cuts the text into. */
  function Lines(text: string): seq<string>
    decreases |text|
  {
    if text == "" then [] else [Chunk(text)] + Lines(text[|Chunk(text)|..])
  }

  function StateBefore(st: FileState, lines: seq<string>): FileState {
    if lines == [] then st else FileStep(StateBefore(st, lines[..|lines| - 1]), lines[|lines| - 1])
  }

  predicate BadLine(st: FileState, lines: seq<string>, i: nat)
    requires i < |lines|
  {
    KindOf(StateBefore(st, lines[..i]), lines[i]) == Malformed
  }

  lemma {:induction false} StateBeforeFirst(st: FileState, lines: seq<string>)
    requires lines != []
    ensures StateBefore(st, lines) == StateBefore(FileStep(st, lines[0]), lines[1..])
    decreases |lines|
  {
    hide FileStep;
    var n := |lines| - 1;
    if n == 0 {
      assert lines[..0] == [] && lines[1..] == [];
    } else {
      StateBeforeFirst(st, lines[..n]);
      assert lines[..n][1..] == lines[1..][..n - 1];
    }
  }

  lemma {:induction false} RunIsStateBefore(st: FileState, text: string)
    ensures FileRun(st, text) == StateBefore(st, Lines(text))
    decreases |text|
  {
    hide FileStep, Chunk;
    if text != "" {
      var rest := text[|Chunk(text)|..];
      RunIsStateBefore(FileStep(st, Chunk(text)), rest);
      StateBeforeFirst(st, Lines(text));
      assert Lines(text)[1..] == Lines(rest);
    }
  }

  lemma StepError(st: FileState, line: string)
    ensures var next := FileStep(st, line);
            && next.lineno == st.lineno + 1
            && next.error == if KindOf(st, line) == Malformed && st.error == 0 then st.lineno + 1 else st.error
  {
    hide KindOf;
  }

  /** `e` is the number of the first malformed line, or 0 when there is none. */
  predicate NumbersFirstBad(st: FileState, lines: seq<string>, e: nat) {
    && e <= |lines|
    && (e == 0 ==> forall i | 0 <= i < |lines| :: !BadLine(st, lines, i))
    && (e > 0 ==> BadLine(st, lines, e - 1) && forall i | 0 <= i < e - 1 :: !BadLine(st, lines, i))
  }

  lemma {:induction false} FirstError(st: FileState, lines: seq<string>)
    requires st.error == 0 && st.lineno == 0
    ensures var l := StateBefore(st, lines);
            l.lineno == |lines| && NumbersFirstBad(st, lines, l.error)
    decreases |lines|
  {
    hide KindOf, FileStep;
    if lines != [] {
      var n := |lines| - 1;
      var init := lines[..n];
      FirstError(st, init);
      var before := StateBefore(st, init);
      StepError(before, lines[n]);
      forall i | 0 <= i < n
        ensures BadLine(st, lines, i) == BadLine(st, init, i)
      {
        assert init[..i] == lines[..i];
      }
      assert BadLine(st, lines, n) == (KindOf(before, lines[n]) == Malformed);
    }
  }

  /** The returned code is the number of the first malformed line, or 0 without one. A line of
      200 bytes or more counts as several. */
  lemma ErrorIsFirstBadLine(text: string)
    ensures NumbersFirstBad(START, Lines(text), FileRun(START, text).error)
  {
    hide Lines, FileRun, StateBefore, NumbersFirstBad;
    RunIsStateBefore(START, text);
    FirstError(START, Lines(text));
  }

  function MakeKey(section: string, name: string): string {
    Lower(section + "." + name)
  }

  type Values = map<string, string>

  function Append(old_: string, value: string): string {
    if old_ == "" then value else old_ + "\n" + value
  }

  function Handle(values: Values, c: Call): Values {
    var key := MakeKey(c.section, c.name);
    values[key := Append(if key in values then values[key] else "", c.value)]
  }

  function HandleAll(values: Values, calls: seq<Call>): Values {
    if calls == [] then values else Handle(HandleAll(values, calls[..|calls| - 1]), calls[|calls| - 1])
  }

  function Lookup(values: Values, section: string, name: string, default_: string): string {
    var key := MakeKey(section, name);
    if key in values then values[key] else default_
  }

  const TRUE_WORDS := ["true", "yes", "on", "1"]
  const FALSE_WORDS := ["false", "no", "off", "0"]

  function BooleanOf(s: string, defaultValue: bool): bool {
    if Lower(s) in TRUE_WORDS then true else if Lower(s) in FALSE_WORDS then false else defaultValue
  }

  lemma BooleanLiterals()
    ensures NoCapitals("true") && NoCapitals("yes") && NoCapitals("on") && NoCapitals("1")
    ensures NoCapitals("false") && NoCapitals("no") && NoCapitals("off") && NoCapitals("0")
  {
  }

  /** The words count in any letter case. */
  lemma BooleanWords(s: string, defaultValue: bool)
    ensures var yes := SameLetters(s, "true") || SameLetters(s, "yes") || SameLetters(s, "on") || s == "1";
            var no := SameLetters(s, "false") || SameLetters(s, "no") || SameLetters(s, "off") || s == "0";
            && (yes ==> BooleanOf(s, defaultValue))
            && (no ==> !BooleanOf(s, defaultValue))
            && (!yes && !no ==> BooleanOf(s, defaultValue) == defaultValue)
  {
    BooleanLiterals();
    LowerIs(s, "true");
    LowerIs(s, "yes");
    LowerIs(s, "on");
    LowerIs(s, "1");
    LowerIs(s, "false");
    LowerIs(s, "no");
    LowerIs(s, "off");
    LowerIs(s, "0");
    hide Lower;
    assert SameLetters(s, "1") <==> s == "1";
    assert SameLetters(s, "0") <==> s == "0";
  }

  /** `INIReader`. */
  class Reader {
    var error: int
    var values: Values

    constructor ()
      ensures error == 0 && values == map[]
    {
      error, values := 0, map[];
    }

    method ValueHandler(section: string, name: string, value: string) returns (accepted: bool)
      modifies this`values
      ensures accepted && values == Handle(old(values), Call(section, name, value))
    {
      var key := MakeKey(section, name);
      if key !in values {
        values := values[key := ""];
      }
      if |values[key]| > 0 {
        values := values[key := values[key] + "\n"];
      }
      values := values[key := values[key] + value];
      assert "" + value == value;
      return true;
    }

    method Get(section: string, name: string, defaultValue: string) returns (value: string)
      ensures value == Lookup(values, section, name, defaultValue)
    {
      var key := MakeKey(section, name);
      return if key in values then values[key] else defaultValue;
    }

    method GetBoolean(section: string, name: string, defaultValue: bool) returns (b: bool)
      ensures b == BooleanOf(Lookup(values, section, name, ""), defaultValue)
    {
      var found := Get(section, name, "");
      var valstr := Lower(found);
      if valstr == "true" || valstr == "yes" || valstr == "on" || valstr == "1" {
        return true;
      } else if valstr == "false" || valstr == "no" || valstr == "off" || valstr == "0" {
        return false;
      }
      return defaultValue;
    }
  }
}
