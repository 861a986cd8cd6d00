/** Printed INI files are read back: every value under its section and name, in any letter case. The
    printer is free in white space, in the separator, in comments and in lines without content. */
module IniRoundTrip {
  import opened Text
  import opened Characters
  import opened Ini
  import opened IniFile
  import opened Split

  predicate Plain(s: string) {
    forall i | 0 <= i < |s| :: s[i] != '\n' && s[i] != '\0'
  }

  predicate White(s: string) {
    Spaces(s) && Plain(s)
  }

  predicate Trimmed(s: string) {
    s != "" && !IsSpace(s[0]) && !IsSpace(s[|s| - 1])
  }

  /** No `;` behind white space. */
  predicate Uncommented(s: string) {
    forall i | 0 < i < |s| :: s[i] == ';' ==> !IsSpace(s[i - 1])
  }

  /** A line without content: blank or a comment. */
  datatype Fill = Fill(lead: string, text: string)

  /** A continuation line, with the fill in front of it. */
  datatype More = More(fill: seq<Fill>, lead: string, text: string, trail: string)

  /** A name with its value, whose further lines are continuation lines. */
  datatype Entry = Entry(
    fill: seq<Fill>, name: string, before: string, colon: bool, after: string, first: string,
    space: string, comment: string, more: seq<More>)

  datatype Section = Section(fill: seq<Fill>, name: string, trail: string, entries: seq<Entry>)

  function FillLine(f: Fill): string {
    f.lead + f.text
  }

  function MoreLine(m: More): string {
    m.lead + m.text + m.trail
  }

  function Mark(e: Entry): string {
    if e.colon then ":" else "="
  }

  function EntryLine(e: Entry): string {
    e.name + e.before + Mark(e) + e.after + e.first + e.space + e.comment
  }

  function SectionLineText(s: Section): string {
    "[" + s.name + "]" + s.trail
  }

  predicate ValidFill(f: Fill) {
    && White(f.lead) && Plain(f.text) && (f.text != "" ==> f.text[0] == ';' || f.text[0] == '#')
    && |FillLine(f)| <= 198
  }

  predicate ValidFills(fs: seq<Fill>) {
    forall i | 0 <= i < |fs| :: ValidFill(fs[i])
  }

  predicate ValidMore(m: More) {
    && ValidFills(m.fill) && White(m.lead) && m.lead != "" && White(m.trail)
    && Plain(m.text) && Trimmed(m.text) && m.text[0] != ';' && m.text[0] != '#'
    && |MoreLine(m)| <= 198
  }

  predicate ValidName(name: string) {
    && Plain(name) && Trimmed(name) && Uncommented(name) && '=' !in name
    && name[0] != ';' && name[0] != '#' && name[0] != '['
  }

  /** A comment needs a value and white space in front of it. */
  predicate ValidValue(e: Entry) {
    && Plain(e.first) && (e.first == "" || Trimmed(e.first)) && Uncommented(e.first)
    && White(e.space) && Plain(e.comment)
    && (e.comment != "" ==> e.comment[0] == ';' && e.space != "" && e.first != "")
    && (e.colon ==> ':' !in e.name && '=' !in e.first)
  }

  predicate ValidLine(e: Entry) {
    ValidName(e.name) && White(e.before) && White(e.after) && ValidValue(e) && |EntryLine(e)| <= 198
  }

  predicate ValidEntry(e: Entry) {
    ValidFills(e.fill) && ValidLine(e) && |e.name| <= 49 && forall i | 0 <= i < |e.more| :: ValidMore(e.more[i])
  }

  predicate ValidHead(s: Section) {
    && Plain(s.name) && Uncommented(s.name) && ']' !in s.name && Plain(s.trail)
    && |SectionLineText(s)| <= 198
  }

  predicate ValidSection(s: Section) {
    && ValidFills(s.fill) && ValidHead(s) && |s.name| <= 49
    && forall i | 0 <= i < |s.entries| :: ValidEntry(s.entries[i])
  }

  function FillText(fs: seq<Fill>): string {
    if fs == [] then "" else FillLine(fs[0]) + "\n" + FillText(fs[1..])
  }

  function MoreText(more: seq<More>): string {
    if more == [] then "" else FillText(more[0].fill) + (MoreLine(more[0]) + "\n" + MoreText(more[1..]))
  }

  function EntryText(e: Entry): string {
    FillText(e.fill) + (EntryLine(e) + "\n" + MoreText(e.more))
  }

  function EntriesText(es: seq<Entry>): string {
    if es == [] then "" else EntryText(es[0]) + EntriesText(es[1..])
  }

  function SectionText(s: Section): string {
    FillText(s.fill) + (SectionLineText(s) + "\n" + EntriesText(s.entries))
  }

  function FileText(ss: seq<Section>, end: seq<Fill>): string {
    if ss == [] then FillText(end) else SectionText(ss[0]) + FileText(ss[1..], end)
  }

  /** A printed line is read as one piece. */
  lemma {:induction false} ChunkOfLine(l: string, rest: string, limit: nat)
    requires Plain(l) && |l| < limit
    ensures Upto(l + "\n" + rest, limit) == l + "\n"
    decreases |l|
  {
    var s := l + "\n" + rest;
    if l != "" {
      assert s[1..] == l[1..] + "\n" + rest;
      ChunkOfLine(l[1..], rest, limit - 1);
    }
  }

  lemma {:induction false} UptoNulOfPlain(s: string)
    requires '\0' !in s
    ensures UptoNul(s) == s
    decreases |s|
  {
    if s != "" {
      UptoNulOfPlain(s[1..]);
    }
  }

  lemma RunLine(st: FileState, l: string, rest: string)
    requires Plain(l) && |l| <= 198
    ensures FileRun(st, l + "\n" + rest) == FileRun(FileStep(st, l + "\n"), rest)
  {
    hide FileStep;
    ChunkOfLine(l, rest, INI_MAX_LINE - 1);
    var s := l + "\n" + rest;
    assert s[|l| + 1..] == rest;
  }

  lemma StripRightTrimmed(s: string)
    requires s == "" || !IsSpace(s[|s| - 1])
    ensures StripRight(s) == s
  {
  }

  lemma {:induction false} StripRightKeeps(a: string, b: string)
    requires a != "" && !IsSpace(a[|a| - 1])
    ensures StripRight(a + b) == a + StripRight(b)
    decreases |b|
  {
    var s := a + b;
    if b == "" {
      assert s == a;
    } else {
      assert s[..|s| - 1] == a + b[..|b| - 1] && s[|s| - 1] == b[|b| - 1];
      StripRightKeeps(a, b[..|b| - 1]);
    }
  }

  lemma {:induction false} StripRightDrops(s: string, w: string)
    requires Spaces(w)
    ensures StripRight(s + w) == StripRight(s)
    decreases |w|
  {
    if w == "" {
      assert s + w == s;
    } else {
      var n := |w| - 1;
      assert (s + w)[..|s| + n] == s + w[..n] && (s + w)[|s| + n] == w[n];
      StripRightDrops(s, w[..n]);
    }
  }

  /** The trimmed text of the line `lead + l + "\n"`. */
  lemma TrimOfLine(lead: string, l: string)
    requires Spaces(lead) && l != "" && !IsSpace(l[0])
    ensures StripRight(lead + l + "\n") == lead + StripRight(l) && SkipSpaces(lead + StripRight(l)) == StripRight(l)
    ensures StripRight(l) != "" && StripRight(l)[0] == l[0]
  {
    var a, b := [l[0]], l[1..];
    assert l == a + b && lead + l == (lead + a) + b;
    StripRightKeeps(a, b);
    StripRightKeeps(lead + a, b);
    StripRightDrops(lead + l, "\n");
    assert (lead + a) + StripRight(b) == lead + (a + StripRight(b));
    SpacesAreSkipped(lead, a + StripRight(b));
  }

  lemma KindOfLine(st: FileState, lead: string, l: string)
    requires White(lead) && Plain(l) && l != "" && !IsSpace(l[0])
    requires st.lineno == 0 ==> l[0] as int != 0xEF
    ensures KindOf(st, lead + l + "\n") == Classify(StripRight(l), lead != "", st.prevName)
  {
    hide UptoNul, StripRight, SkipSpaces, Classify;
    TrimOfLine(lead, l);
    var s := lead + l + "\n";
    assert forall i | 0 <= i < |s| :: s[i] != '\0';
    UptoNulOfPlain(s);
    assert s[0] == if lead == "" then l[0] else lead[0];
    assert !(st.lineno == 0 && Marked(s));
  }

  lemma EmptyTexts()
    ensures StripRight("") == "" && SkipSpaces("") == ""
  {
  }

  lemma KindOfBlank(st: FileState, lead: string)
    requires White(lead)
    ensures KindOf(st, lead + "\n") == Ignored
  {
    hide UptoNul, StripRight, SkipSpaces;
    var s := lead + "\n";
    assert forall i | 0 <= i < |s| :: s[i] != '\0' && s[i] as int < 128;
    UptoNulOfPlain(s);
    assert !Marked(s);
    StripRightDrops("", s);
    assert "" + s == s;
    EmptyTexts();
  }

  /** Lines without content change nothing but the line number. */
  lemma StepFill(st: FileState, f: Fill)
    requires ValidFill(f)
    ensures FileStep(st, FillLine(f) + "\n") == st.(lineno := st.lineno + 1)
  {
    hide KindOf, Spaces;
    if f.text == "" {
      assert FillLine(f) == f.lead;
      KindOfBlank(st, f.lead);
    } else {
      KindOfLine(st, f.lead, f.text);
      TrimOfLine("", f.text);
    }
  }

  lemma LineOfFill(f: Fill)
    requires ValidFill(f)
    ensures Plain(FillLine(f)) && |FillLine(f)| <= 198
  {
  }

  lemma {:induction false} RunFill(st: FileState, fs: seq<Fill>, rest: string)
    requires ValidFills(fs)
    ensures FileRun(st, FillText(fs) + rest) == FileRun(st.(lineno := st.lineno + |fs|), rest)
    decreases |fs|
  {
    hide FileRun, FileStep, FillLine, ValidFill;
    if fs == [] {
      assert "" + rest == rest;
    } else {
      var l, more := FillLine(fs[0]), FillText(fs[1..]) + rest;
      assert ValidFill(fs[0]);
      LineOfFill(fs[0]);
      assert FillText(fs) + rest == l + "\n" + more;
      hide Plain;
      RunLine(st, l, more);
      StepFill(st, fs[0]);
      RunFill(st.(lineno := st.lineno + 1), fs[1..], rest);
    }
  }

  /** The scan passes text without the character and without a comment, and stops at the character or
      at a comment. */
  lemma {:induction false} ScanPasses(s: string, c: char, rest: string, white: bool)
    requires c !in s && Uncommented(s) && (s != "" && s[0] == ';' ==> !white)
    requires rest != "" && (rest[0] == c || (rest[0] == ';' && if s == "" then white else IsSpace(s[|s| - 1])))
    ensures Scan(s + rest, c, white) == |s|
    decreases |s|
  {
    if s == "" {
      assert s + rest == rest;
    } else {
      assert (s + rest)[1..] == s[1..] + rest;
      assert Uncommented(s[1..]) by {
        assert forall i | 0 < i < |s| - 1 :: s[1..][i] == s[i + 1] && s[1..][i - 1] == s[i];
      }
      ScanPasses(s[1..], c, rest, IsSpace(s[0]));
    }
  }

  /** The scan does not go beyond a comment. */
  lemma {:induction false} ScanStops(s: string, c: char, rest: string, white: bool)
    requires c !in s && rest != "" && rest[0] == ';' && if s == "" then white else IsSpace(s[|s| - 1])
    ensures Scan(s + rest, c, white) <= |s|
    decreases |s|
  {
    if s == "" {
      assert s + rest == rest;
    } else {
      assert (s + rest)[1..] == s[1..] + rest;
      ScanStops(s[1..], c, rest, IsSpace(s[0]));
    }
  }

  /** The scan for the end passes a value without a comment. */
  lemma {:induction false} ScanToEnd(s: string, white: bool)
    requires '\0' !in s && Uncommented(s) && (s != "" && s[0] == ';' ==> !white)
    ensures Scan(s, '\0', white) == |s|
    decreases |s|
  {
    if s != "" {
      assert Uncommented(s[1..]) by {
        assert forall i | 0 < i < |s| - 1 :: s[1..][i] == s[i + 1] && s[1..][i - 1] == s[i];
      }
      ScanToEnd(s[1..], IsSpace(s[0]));
    }
  }

  lemma UncommentedWhite(s: string, w: string)
    requires Uncommented(s) && White(w)
    ensures Uncommented(s + w)
  {
    assert forall i | 0 <= i < |w| :: w[i] != ';';
  }

  lemma SectionKind(s: Section, prevName: string)
    requires ValidHead(s)
    ensures Classify(StripRight(SectionLineText(s)), false, prevName) == SectionLine(s.name)
  {
    StripRightKeeps("[" + s.name + "]", s.trail);
    var trail := StripRight(s.trail);
    hide StripRight;
    var t := "[" + s.name + "]" + trail;
    assert t[1..] == s.name + ("]" + trail);
    ScanPasses(s.name, ']', "]" + trail, false);
    assert t[1..][..|s.name|] == s.name && t[1..][|s.name|] == ']';
  }

  /** What stands behind the separator of a trimmed line. */
  function ValuePart(e: Entry): string {
    if e.comment != "" then e.after + e.first + e.space + (";" + StripRight(e.comment[1..]))
    else if e.first != "" then e.after + e.first
    else ""
  }

  /** A comment is cut off a value. */
  lemma CommentIsCut(first: string, space: string, comment: string)
    requires Plain(first) && Trimmed(first) && Uncommented(first) && White(space) && space != ""
    ensures ValueText(first + space + (";" + comment)) == first
  {
    var v, s := first + space + (";" + comment), first + space;
    UncommentedWhite(first, space);
    assert v[0] == first[0];
    assert SkipSpaces(v) == v;
    assert IsSpace(s[|s| - 1]) by { assert s[|s| - 1] == space[|space| - 1]; }
    ScanPasses(s, '\0', ";" + comment, false);
    assert v[|s|] == ';' && v[..|s|] == s;
    StripRightDrops(first, space);
    StripRightTrimmed(first);
  }

  lemma ValueTextOfTrimmed(s: string)
    requires Plain(s) && (s == "" || Trimmed(s)) && Uncommented(s)
    ensures ValueText(s) == s
  {
    assert SkipSpaces(s) == s;
    ScanToEnd(s, false);
    StripRightTrimmed(s);
  }

  lemma ValueTextSkips(after: string, s: string)
    requires Spaces(after) && (s == "" || !IsSpace(s[0]))
    ensures ValueText(after + s) == ValueText(s)
  {
    SpacesAreSkipped(after, s);
    SpacesAreSkipped("", s);
    assert "" + s == s;
  }

  lemma ValueOfPart(e: Entry)
    requires ValidLine(e)
    ensures ValueText(ValuePart(e)) == e.first
  {
    hide ValueText, StripRight, Uncommented, Plain, ValidName;
    if e.comment != "" {
      var comment := StripRight(e.comment[1..]);
      var s := e.first + e.space + (";" + comment);
      assert ValuePart(e) == e.after + s && s[0] == e.first[0];
      ValueTextSkips(e.after, s);
      CommentIsCut(e.first, e.space, comment);
    } else {
      ValueTextSkips(e.after, e.first);
      ValueTextOfTrimmed(e.first);
    }
  }

  lemma TrimmedWithComment(before: string, space: string, comment: string)
    requires comment != "" && comment[0] == ';'
    ensures StripRight(before + space + comment) == before + space + (";" + StripRight(comment[1..]))
  {
    var a := before + space + ";";
    assert comment == ";" + comment[1..];
    StripRightKeeps(a, comment[1..]);
    hide StripRight;
    assert before + space + comment == a + comment[1..];
  }

  lemma TrimmedWithValue(before: string, first: string, space: string)
    requires Trimmed(first) && Spaces(space)
    ensures StripRight(before + first + space) == before + first
  {
    var a := before + first;
    assert a[|a| - 1] == first[|first| - 1];
    StripRightDrops(a, space);
    StripRightTrimmed(a);
  }

  lemma TrimmedWithoutValue(start: string, mark: string, after: string, space: string)
    requires (mark == "=" || mark == ":") && Spaces(after) && Spaces(space)
    ensures StripRight(start + mark + after + space) == start + mark
  {
    StripRightDrops(start + mark + after, space);
    StripRightDrops(start + mark, after);
    StripRightTrimmed(start + mark);
  }

  lemma ValidLineParts(e: Entry)
    requires ValidLine(e)
    ensures Spaces(e.before) && Spaces(e.after) && Spaces(e.space) && (e.first == "" || Trimmed(e.first))
    ensures e.comment != "" ==> e.comment[0] == ';' && e.first != ""
  {
    hide Plain, Uncommented, Spaces;
  }

  lemma JoinFive(s: string, a: string, b: string, c: string, d: string, e: string)
    ensures s + a + b + c + d + e == s + (a + (b + c + d + e))
  {
  }

  lemma TrimmedCommented(s: string, mark: string, after: string, first: string, space: string, comment: string)
    requires comment != "" && comment[0] == ';'
    ensures StripRight(s + mark + after + first + space + comment) ==
            s + (mark + (after + first + space + (";" + StripRight(comment[1..]))))
  {
    hide StripRight;
    TrimmedWithComment(s + mark + after + first, space, comment);
    JoinFive(s, mark, after, first, space, ";" + StripRight(comment[1..]));
  }

  lemma TrimmedValued(s: string, mark: string, after: string, first: string, space: string)
    requires Trimmed(first) && Spaces(space)
    ensures StripRight(s + mark + after + first + space + "") == s + (mark + (after + first))
  {
    hide StripRight;
    TrimmedWithValue(s + mark + after, first, space);
    assert s + mark + after + first + space + "" == s + mark + after + first + space;
    assert s + mark + after + first == s + (mark + (after + first));
  }

  lemma TrimmedEmpty(s: string, mark: string, after: string, space: string)
    requires (mark == "=" || mark == ":") && Spaces(after) && Spaces(space)
    ensures StripRight(s + mark + after + "" + space + "") == s + (mark + "")
  {
    hide StripRight;
    TrimmedWithoutValue(s, mark, after, space);
    assert s + mark + after + "" + space + "" == s + mark + after + space;
    assert mark + "" == mark;
  }

  /** The trimmed text of the line of an entry. */
  lemma EntryTrimmed(e: Entry)
    requires ValidLine(e)
    ensures StripRight(EntryLine(e)) == (e.name + e.before) + (Mark(e) + ValuePart(e))
  {
    ValidLineParts(e);
    hide ValidLine, StripRight, Spaces, Trimmed;
    var s := e.name + e.before;
    if e.comment != "" {
      TrimmedCommented(s, Mark(e), e.after, e.first, e.space, e.comment);
    } else if e.first != "" {
      TrimmedValued(s, Mark(e), e.after, e.first, e.space);
    } else {
      TrimmedEmpty(s, Mark(e), e.after, e.space);
    }
  }

  /** A character is not found if it stands at most in a comment. */
  lemma NotFound(s: string, c: char, rest: string)
    requires c !in s && c != ';' && c != '\0' && s != ""
    requires rest != "" ==> rest[0] == ';' && IsSpace(s[|s| - 1])
    ensures At(s + rest, Scan(s + rest, c, false)) != c
  {
    var t := s + rest;
    if rest == "" {
      assert t == s;
    } else {
      ScanStops(s, c, rest, false);
      assert forall i | 0 <= i < |s| :: t[i] == s[i];
      assert t[|s|] == ';';
    }
  }

  lemma NoMarkInWhite(w: string)
    requires Spaces(w)
    ensures '=' !in w && ':' !in w
  {
  }

  lemma NotInConcat(a: string, b: string, c: char)
    requires c !in a && c !in b
    ensures c !in a + b
  {
  }

  lemma NoEqualsSign(e: Entry)
    requires ValidLine(e) && e.colon
    ensures var t := (e.name + e.before) + (Mark(e) + ValuePart(e)); At(t, Scan(t, '=', false)) != '='
  {
    ValidLineParts(e);
    assert e.name != "" && '=' !in e.name && '=' !in e.first && (e.comment != "" ==> e.space != "");
    hide Scan, ValidLine, At, Trimmed, StripRight;
    NoMarkInWhite(e.before);
    NoMarkInWhite(e.after);
    NoMarkInWhite(e.space);
    var s := e.name + e.before;
    NotInConcat(e.name, e.before, '=');
    NotInConcat(s, ":", '=');
    NotInConcat(s + ":", e.after, '=');
    NotInConcat(s + ":" + e.after, e.first, '=');
    NotInConcat(s + ":" + e.after + e.first, e.space, '=');
    if e.comment != "" {
      var before, rest := s + ":" + e.after + e.first + e.space, ";" + StripRight(e.comment[1..]);
      assert before[|before| - 1] == e.space[|e.space| - 1];
      assert IsSpace(before[|before| - 1]);
      NotFound(before, '=', rest);
      JoinFive(s, ":", e.after, e.first, e.space, rest);
    } else if e.first != "" {
      NotFound(s + ":" + e.after + e.first, '=', "");
      assert s + ":" + e.after + e.first + "" == s + (":" + (e.after + e.first));
    } else {
      NotFound(s + ":", '=', "");
      assert s + ":" + "" == s + (":" + "");
    }
  }

  /** The separator of a trimmed line. */
  lemma SeparatorOfLine(e: Entry)
    requires ValidLine(e)
    ensures Separator((e.name + e.before) + (Mark(e) + ValuePart(e))) == |e.name + e.before|
  {
    var s, v := e.name + e.before, Mark(e) + ValuePart(e);
    UncommentedWhite(e.name, e.before);
    assert s[0] == e.name[0];
    assert forall i | 0 <= i < |e.before| :: e.before[i] != '=' && e.before[i] != ':';
    ScanPasses(s, if e.colon then ':' else '=', v, false);
    assert (s + v)[|s|] == v[0] == Mark(e)[0];
    if e.colon {
      NoEqualsSign(e);
    }
  }

  lemma NameValueParts(t: string, prevName: string)
    requires t != "" && t[0] != ';' && t[0] != '#' && t[0] != '['
    requires Separator(t) < |t| && (t[Separator(t)] == '=' || t[Separator(t)] == ':')
    ensures Classify(t, false, prevName) == NameValue(StripRight(t[..Separator(t)]), ValueText(t[Separator(t) + 1..]))
  {
    hide Separator, StripRight, ValueText, Scan;
  }

  lemma NameOfLine(e: Entry)
    requires ValidLine(e)
    ensures StripRight(e.name + e.before) == e.name
    ensures e.name != "" && e.name[0] != ';' && e.name[0] != '#' && e.name[0] != '['
  {
    hide Plain, Uncommented, ValidValue;
    StripRightDrops(e.name, e.before);
    StripRightTrimmed(e.name);
  }

  lemma CutAtMark(s: string, mark: string, v: string)
    requires |mark| == 1
    ensures var t := s + (mark + v); t[..|s|] == s && t[|s|] == mark[0] && t[|s| + 1..] == v
  {
  }

  lemma NameValueKind(e: Entry, prevName: string)
    requires ValidLine(e)
    ensures Classify(StripRight(EntryLine(e)), false, prevName) == NameValue(e.name, e.first)
  {
    hide StripRight, ValueText, Classify, Separator, ValuePart, EntryLine, ValidLine;
    EntryTrimmed(e);
    SeparatorOfLine(e);
    ValueOfPart(e);
    NameOfLine(e);
    var s := e.name + e.before;
    var t := s + (Mark(e) + ValuePart(e));
    CutAtMark(s, Mark(e), ValuePart(e));
    assert t[0] == e.name[0];
    NameValueParts(t, prevName);
  }

  lemma LineOfSection(s: Section)
    requires ValidHead(s)
    ensures var l := SectionLineText(s); Plain(l) && |l| <= 198 && l != "" && l[0] == '[' && "" + l + "\n" == l + "\n"
  {
  }

  lemma PlainConcat(a: string, b: string)
    requires Plain(a) && Plain(b)
    ensures Plain(a + b)
  {
  }

  lemma LineOfEntry(e: Entry)
    requires ValidLine(e)
    ensures var l := EntryLine(e);
            Plain(l) && |l| <= 198 && l != "" && l[0] == e.name[0] && !IsSpace(l[0]) && "" + l + "\n" == l + "\n"
  {
    hide Uncommented;
    PlainConcat(e.name, e.before);
    PlainConcat(e.name + e.before, Mark(e));
    PlainConcat(e.name + e.before + Mark(e), e.after);
    PlainConcat(e.name + e.before + Mark(e) + e.after, e.first);
    PlainConcat(e.name + e.before + Mark(e) + e.after + e.first, e.space);
    PlainConcat(e.name + e.before + Mark(e) + e.after + e.first + e.space, e.comment);
  }

  lemma EmptyIsWhite()
    ensures White("")
  {
  }

  /** A section name is kept up to 49 characters. */
  lemma StepSection(st: FileState, s: Section)
    requires ValidHead(s)
    ensures FileStep(st, SectionLineText(s) + "\n") ==
            st.(lineno := st.lineno + 1, section := if |s.name| <= 49 then s.name else s.name[..49], prevName := "")
  {
    hide Classify, KindOf, Plain, Uncommented, StripRight, SectionLineText, ValidHead, White, Marked;
    var l := SectionLineText(s);
    SectionKind(s, st.prevName);
    LineOfSection(s);
    EmptyIsWhite();
    KindOfLine(st, "", l);
  }

  /** So is the name that continuation lines belong to. */
  lemma StepEntry(st: FileState, e: Entry)
    requires ValidLine(e) && st.lineno > 0
    ensures FileStep(st, EntryLine(e) + "\n") ==
            st.(lineno := st.lineno + 1, prevName := if |e.name| <= 49 then e.name else e.name[..49],
                calls := st.calls + [Call(st.section, e.name, e.first)])
  {
    hide Classify, KindOf, Plain, Uncommented, StripRight, EntryLine, ValidLine, White;
    var l := EntryLine(e);
    NameValueKind(e, st.prevName);
    LineOfEntry(e);
    EmptyIsWhite();
    KindOfLine(st, "", l);
  }

  lemma LineOfMore(m: More)
    requires ValidMore(m)
    ensures Plain(MoreLine(m)) && |MoreLine(m)| <= 198 && Plain(m.text + m.trail)
    ensures MoreLine(m) == m.lead + (m.text + m.trail) && StripRight(m.text + m.trail) == m.text
    ensures m.text != "" && (m.text + m.trail)[0] == m.text[0] && !IsSpace(m.text[0])
  {
    StripRightDrops(m.text, m.trail);
    StripRightTrimmed(m.text);
  }

  lemma StepMore(st: FileState, m: More)
    requires ValidMore(m) && st.lineno > 0 && st.prevName != ""
    ensures FileStep(st, MoreLine(m) + "\n") ==
            st.(lineno := st.lineno + 1, calls := st.calls + [Call(st.section, st.prevName, m.text)])
  {
    LineOfMore(m);
    assert Classify(m.text, true, st.prevName) == Continuation(m.text);
    hide Classify, KindOf, Plain, StripRight, MoreLine, Spaces;
    KindOfLine(st, m.lead, m.text + m.trail);
  }

  /** The lines of the continuations of an entry. */
  function Texts(more: seq<More>): (ts: seq<string>)
    ensures |ts| == |more|
  {
    seq(|more|, i requires 0 <= i < |more| => more[i].text)
  }

  function MoreCalls(section: string, name: string, more: seq<string>): seq<Call> {
    if more == [] then [] else [Call(section, name, more[0])] + MoreCalls(section, name, more[1..])
  }

  function EntryCalls(section: string, e: Entry): seq<Call> {
    [Call(section, e.name, e.first)] + MoreCalls(section, e.name, Texts(e.more))
  }

  function EntriesCalls(section: string, es: seq<Entry>): seq<Call> {
    if es == [] then [] else EntryCalls(section, es[0]) + EntriesCalls(section, es[1..])
  }

  function FileCalls(ss: seq<Section>): seq<Call> {
    if ss == [] then [] else EntriesCalls(ss[0].name, ss[0].entries) + FileCalls(ss[1..])
  }

  /** After some printed text: more calls, the same section, no new error. */
  predicate Passed(st: FileState, after: FileState, calls: seq<Call>) {
    && after.calls == st.calls + calls && after.error == st.error && after.section == st.section
    && after.lineno >= st.lineno
  }

  lemma RunMoreLine(st: FileState, m: More, tail: string)
    requires ValidMore(m) && st.lineno > 0 && st.prevName != ""
    ensures FileRun(st, MoreLine(m) + "\n" + tail) ==
            FileRun(st.(lineno := st.lineno + 1, calls := st.calls + [Call(st.section, st.prevName, m.text)]), tail)
  {
    hide FileRun, FileStep, MoreLine, Plain, ValidMore, StripRight;
    LineOfMore(m);
    RunLine(st, MoreLine(m), tail);
    StepMore(st, m);
  }

  lemma MoreFills(m: More)
    requires ValidMore(m)
    ensures ValidFills(m.fill)
  {
  }

  lemma RunOneMore(st: FileState, m: More, tail: string)
    requires ValidMore(m) && st.lineno > 0 && st.prevName != ""
    ensures FileRun(st, FillText(m.fill) + (MoreLine(m) + "\n" + tail)) ==
            FileRun(st.(lineno := st.lineno + |m.fill| + 1,
                        calls := st.calls + [Call(st.section, st.prevName, m.text)]), tail)
  {
    hide *;
    MoreFills(m);
    var text := MoreLine(m) + "\n" + tail;
    RunFill(st, m.fill, text);
    var next := st.(lineno := st.lineno + |m.fill|);
    RunMoreLine(next, m, tail);
  }

  lemma PassedThrough(st: FileState, next: FileState, after: FileState, c: Call, cs: seq<Call>)
    requires next.calls == st.calls + [c] && next.error == st.error
    requires next.section == st.section && next.lineno >= st.lineno
    requires Passed(next, after, cs)
    ensures Passed(st, after, [c] + cs)
  {
    assert st.calls + [c] + cs == st.calls + ([c] + cs);
  }

  lemma TextsFirst(more: seq<More>)
    requires more != []
    ensures Texts(more)[0] == more[0].text && Texts(more)[1..] == Texts(more[1..])
  {
  }

  lemma {:induction false} RunMore(st: FileState, more: seq<More>, rest: string) returns (after: FileState)
    requires st.lineno > 0 && st.prevName != "" && forall i | 0 <= i < |more| :: ValidMore(more[i])
    ensures Passed(st, after, MoreCalls(st.section, st.prevName, Texts(more))) && after.prevName == st.prevName
    ensures FileRun(st, MoreText(more) + rest) == FileRun(after, rest)
    decreases |more|
  {
    hide FileRun, FileStep, ValidMore, FillText, MoreLine;
    if more == [] {
      after := st;
      assert "" + rest == rest;
      assert st.calls + [] == st.calls;
    } else {
      var m := more[0];
      var tail := MoreText(more[1..]) + rest;
      assert MoreText(more) + rest == FillText(m.fill) + (MoreLine(m) + "\n" + tail);
      RunOneMore(st, m, tail);
      var c := Call(st.section, st.prevName, m.text);
      var next := st.(lineno := st.lineno + |m.fill| + 1, calls := st.calls + [c]);
      after := RunMore(next, more[1..], rest);
      TextsFirst(more);
      PassedThrough(st, next, after, c, MoreCalls(st.section, st.prevName, Texts(more[1..])));
    }
  }

  lemma EntryParts(e: Entry)
    requires ValidEntry(e)
    ensures e.name != "" && |e.name| <= 49 && ValidLine(e) && ValidFills(e.fill)
    ensures forall i | 0 <= i < |e.more| :: ValidMore(e.more[i])
  {
    hide ValidMore, Plain, Uncommented, ValidFills;
  }

  lemma EntryTextSplit(e: Entry, rest: string)
    ensures EntryText(e) + rest == FillText(e.fill) + (EntryLine(e) + "\n" + (MoreText(e.more) + rest))
  {
    hide MoreText, FillText, EntryLine;
  }

  lemma RunEntry(st: FileState, e: Entry, rest: string) returns (after: FileState)
    requires ValidEntry(e) && st.lineno > 0
    ensures Passed(st, after, EntryCalls(st.section, e))
    ensures FileRun(st, EntryText(e) + rest) == FileRun(after, rest)
  {
    hide FileRun, FileStep, ValidEntry, ValidMore, ValidLine, ValidFills, MoreText, MoreCalls, FillText;
    hide Passed, EntryText, EntryLine, Plain;
    EntryParts(e);
    EntryTextSplit(e, rest);
    LineOfEntry(e);
    var tail := MoreText(e.more) + rest;
    RunFill(st, e.fill, EntryLine(e) + "\n" + tail);
    var filled := st.(lineno := st.lineno + |e.fill|);
    RunLine(filled, EntryLine(e), tail);
    StepEntry(filled, e);
    var c := Call(st.section, e.name, e.first);
    var next := filled.(lineno := filled.lineno + 1, prevName := e.name, calls := st.calls + [c]);
    after := RunMore(next, e.more, rest);
    PassedThrough(st, next, after, c, MoreCalls(st.section, e.name, Texts(e.more)));
  }

  lemma {:induction false} RunEntries(st: FileState, es: seq<Entry>, rest: string) returns (after: FileState)
    requires st.lineno > 0 && forall i | 0 <= i < |es| :: ValidEntry(es[i])
    ensures Passed(st, after, EntriesCalls(st.section, es))
    ensures FileRun(st, EntriesText(es) + rest) == FileRun(after, rest)
    decreases |es|
  {
    hide FileRun, FileStep, ValidEntry, EntryText, EntryCalls;
    if es == [] {
      after := st;
      assert "" + rest == rest;
      assert st.calls + [] == st.calls;
    } else {
      var tail := EntriesText(es[1..]) + rest;
      assert EntriesText(es) + rest == EntryText(es[0]) + tail;
      var next := RunEntry(st, es[0], tail);
      after := RunEntries(next, es[1..], rest);
      assert st.calls + EntryCalls(st.section, es[0]) + EntriesCalls(st.section, es[1..])
          == st.calls + EntriesCalls(st.section, es);
    }
  }

  lemma RunNothing(st: FileState)
    ensures FileRun(st, "") == st
  {
  }

  lemma SectionParts(s: Section)
    requires ValidSection(s)
    ensures ValidFills(s.fill) && ValidHead(s) && |s.name| <= 49
    ensures forall i | 0 <= i < |s.entries| :: ValidEntry(s.entries[i])
  {
    hide ValidEntry, ValidHead, ValidFills;
  }

  lemma FileTextSplit(ss: seq<Section>, end: seq<Fill>)
    requires ss != []
    ensures FileText(ss, end) ==
              FillText(ss[0].fill)
              + (SectionLineText(ss[0]) + "\n" + (EntriesText(ss[0].entries) + FileText(ss[1..], end)))
  {
    hide FillText, SectionLineText, EntriesText;
  }

  lemma {:induction false} RunFile(st: FileState, ss: seq<Section>, end: seq<Fill>) returns (after: FileState)
    requires ValidFills(end) && forall i | 0 <= i < |ss| :: ValidSection(ss[i])
    ensures after == FileRun(st, FileText(ss, end))
    ensures after.error == st.error && after.calls == st.calls + FileCalls(ss)
    decreases |ss|
  {
    hide FileRun, FileStep, EntriesText, EntriesCalls, ValidEntry, ValidHead, ValidFills, Plain, ValidSection;
    hide FillText, SectionLineText;
    if ss == [] {
      after := st.(lineno := st.lineno + |end|);
      RunFill(st, end, "");
      assert FillText(end) + "" == FillText(end);
      RunNothing(after);
      assert st.calls + [] == st.calls;
    } else {
      var s := ss[0];
      assert ValidSection(s);
      SectionParts(s);
      var rest := FileText(ss[1..], end);
      var tail := EntriesText(s.entries) + rest;
      FileTextSplit(ss, end);
      LineOfSection(s);
      RunFill(st, s.fill, SectionLineText(s) + "\n" + tail);
      var filled := st.(lineno := st.lineno + |s.fill|);
      RunLine(filled, SectionLineText(s), tail);
      StepSection(filled, s);
      var next := FileStep(filled, SectionLineText(s) + "\n");
      var last := RunEntries(next, s.entries, rest);
      after := RunFile(last, ss[1..], end);
      assert st.calls + EntriesCalls(s.name, s.entries) + FileCalls(ss[1..]) == st.calls + FileCalls(ss);
    }
  }

  /** The pairs of a file, in order. */
  datatype Item = Item(section: string, entry: Entry)

  function SectionItems(section: string, es: seq<Entry>): seq<Item> {
    if es == [] then [] else [Item(section, es[0])] + SectionItems(section, es[1..])
  }

  function Items(ss: seq<Section>): seq<Item> {
    if ss == [] then [] else SectionItems(ss[0].name, ss[0].entries) + Items(ss[1..])
  }

  function ItemsCalls(items: seq<Item>): seq<Call> {
    if items == [] then [] else EntryCalls(items[0].section, items[0].entry) + ItemsCalls(items[1..])
  }

  lemma {:induction false} ItemsCallsConcat(a: seq<Item>, b: seq<Item>)
    ensures ItemsCalls(a + b) == ItemsCalls(a) + ItemsCalls(b)
    decreases |a|
  {
    hide EntryCalls;
    if a == [] {
      assert a + b == b;
    } else {
      assert (a + b)[1..] == a[1..] + b;
      ItemsCallsConcat(a[1..], b);
    }
  }

  lemma {:induction false} SectionItemsCalls(section: string, es: seq<Entry>)
    ensures ItemsCalls(SectionItems(section, es)) == EntriesCalls(section, es)
    decreases |es|
  {
    hide EntryCalls;
    if es != [] {
      SectionItemsCalls(section, es[1..]);
      assert SectionItems(section, es)[1..] == SectionItems(section, es[1..]);
    }
  }

  lemma {:induction false} FileItemsCalls(ss: seq<Section>)
    ensures FileCalls(ss) == ItemsCalls(Items(ss))
    decreases |ss|
  {
    hide EntryCalls;
    if ss != [] {
      FileItemsCalls(ss[1..]);
      SectionItemsCalls(ss[0].name, ss[0].entries);
      ItemsCallsConcat(SectionItems(ss[0].name, ss[0].entries), Items(ss[1..]));
    }
  }

  /** The value that accumulates from the lines of an entry. */
  function Accumulated(first: string, more: seq<string>): string
    decreases |more|
  {
    if more == [] then first else Accumulated(Append(first, more[0]), more[1..])
  }

  function ItemKey(i: Item): string {
    MakeKey(i.section, i.entry.name)
  }

  function ItemValue(i: Item): string {
    Accumulated(i.entry.first, Texts(i.entry.more))
  }

  lemma HandleFirst(values: Values, c: Call, cs: seq<Call>)
    ensures HandleAll(values, [c] + cs) == HandleAll(Handle(values, c), cs)
  {
    hide Handle, HandleAll;
    HandleConcat(values, [c], cs);
    HandleOne(values, c);
  }

  lemma {:induction false} HandleMore(values: Values, section: string, name: string, more: seq<string>)
    requires MakeKey(section, name) in values
    ensures var key := MakeKey(section, name);
            HandleAll(values, MoreCalls(section, name, more)) == values[key := Accumulated(values[key], more)]
    decreases |more|
  {
    hide HandleAll, MakeKey;
    var key := MakeKey(section, name);
    if more == [] {
      NoCalls(values);
      assert values[key := values[key]] == values;
    } else {
      HandleFirst(values, Call(section, name, more[0]), MoreCalls(section, name, more[1..]));
      var next := Handle(values, Call(section, name, more[0]));
      HandleMore(next, section, name, more[1..]);
    }
  }

  lemma HandleEntry(values: Values, section: string, e: Entry)
    requires MakeKey(section, e.name) !in values
    ensures HandleAll(values, EntryCalls(section, e)) ==
            values[MakeKey(section, e.name) := Accumulated(e.first, Texts(e.more))]
  {
    hide HandleAll, MakeKey;
    var c := Call(section, e.name, e.first);
    HandleFirst(values, c, MoreCalls(section, e.name, Texts(e.more)));
    HandleMore(Handle(values, c), section, e.name, Texts(e.more));
  }

  predicate DistinctKeys(items: seq<Item>) {
    forall i, j | 0 <= i < j < |items| :: ItemKey(items[i]) != ItemKey(items[j])
  }

  lemma HandleItem(values: Values, x: Item)
    requires ItemKey(x) !in values
    ensures HandleAll(values, EntryCalls(x.section, x.entry)) == values[ItemKey(x) := ItemValue(x)]
  {
    hide HandleAll, EntryCalls, MakeKey;
    HandleEntry(values, x.section, x.entry);
  }

  /** The map holds exactly the values of the items besides `values`. */
  lemma {:induction false} HandleItems(values: Values, items: seq<Item>)
    requires DistinctKeys(items) && forall i | 0 <= i < |items| :: ItemKey(items[i]) !in values
    ensures var all := HandleAll(values, ItemsCalls(items));
            && (forall i | 0 <= i < |items| ::
                  ItemKey(items[i]) in all && all[ItemKey(items[i])] == ItemValue(items[i]))
            && (forall k | (forall i | 0 <= i < |items| :: k != ItemKey(items[i])) ::
                  (k in all <==> k in values) && (k in all ==> all[k] == values[k]))
    decreases |items|
  {
    hide HandleAll, EntryCalls, ItemKey, ItemValue;
    if items == [] {
      NoCalls(values);
    } else {
      var x, rest := items[0], items[1..];
      HandleItem(values, x);
      var next := values[ItemKey(x) := ItemValue(x)];
      HandleConcat(values, EntryCalls(x.section, x.entry), ItemsCalls(rest));
      assert DistinctKeys(rest);
      HandleItems(next, rest);
      var all := HandleAll(next, ItemsCalls(rest));
      forall i | 0 <= i < |items|
        ensures ItemKey(items[i]) in all && all[ItemKey(items[i])] == ItemValue(items[i])
      {
        if i > 0 {
          assert items[i] == rest[i - 1];
        } else {
          assert forall j | 0 <= j < |rest| :: rest[j] == items[j + 1];
        }
      }
      forall k | forall i | 0 <= i < |items| :: k != ItemKey(items[i])
        ensures (k in all <==> k in values) && (k in all ==> all[k] == values[k])
      {
        assert k != ItemKey(items[0]);
        assert forall i | 0 <= i < |rest| :: rest[i] == items[i + 1];
      }
    }
  }

  lemma LowerConcat(a: string, b: string)
    ensures Lower(a + b) == Lower(a) + Lower(b)
  {
  }

  /** A key depends on its section and name only up to letter case. */
  lemma KeyFoldsCase(section: string, name: string, section2: string, name2: string)
    requires SameLetters(section, section2) && SameLetters(name, name2)
    ensures MakeKey(section, name) == MakeKey(section2, name2)
  {
    LowerSame(section, section2);
    LowerSame(name, name2);
    hide Lower;
    LowerConcat(section + ".", name);
    LowerConcat(section, ".");
    LowerConcat(section2 + ".", name2);
    LowerConcat(section2, ".");
  }

  lemma LowerKeepsDots(s: string)
    requires '.' !in s
    ensures '.' !in Lower(s)
  {
    assert forall i | 0 <= i < |s| :: s[i] != '.' && Lower(s)[i] == ToLower(s[i]);
  }

  lemma SplitAtDot(a: string, x: string, b: string, y: string)
    requires '.' !in a && '.' !in b && a + "." + x == b + "." + y
    ensures a == b && x == y
  {
    FindCharacter(a, '.', x);
    FindCharacter(b, '.', y);
    hide Find;
    var s := a + "." + x;
    assert s[..|a|] == a && s[|a| + 1..] == x;
    assert (b + "." + y)[..|b|] == b && (b + "." + y)[|b| + 1..] == y;
  }

  /** For sections without a dot, keys are equal exactly up to letter case. */
  lemma KeyIsFaithful(section: string, name: string, section2: string, name2: string)
    requires '.' !in section && '.' !in section2
    ensures MakeKey(section, name) == MakeKey(section2, name2) <==>
            SameLetters(section, section2) && SameLetters(name, name2)
  {
    LowerSame(section, section2);
    LowerSame(name, name2);
    hide SameLetters;
    if MakeKey(section, name) == MakeKey(section2, name2) {
      LowerConcat(section + ".", name);
      LowerConcat(section, ".");
      LowerConcat(section2 + ".", name2);
      LowerConcat(section2, ".");
      assert Lower(".") == ".";
      LowerKeepsDots(section);
      LowerKeepsDots(section2);
      hide Lower;
      SplitAtDot(Lower(section), Lower(name), Lower(section2), Lower(name2));
    }
    if SameLetters(section, section2) && SameLetters(name, name2) {
      KeyFoldsCase(section, name, section2, name2);
    }
  }

  /** Reading a printed file gives no error, and each entry is found under its section and name in
      any letter case, whatever its white space, separator, comments and lines without content. Other
      keys are not found. */
  lemma FileRoundTrip(ss: seq<Section>, end: seq<Fill>, section: string, name: string, default_: string)
    requires ValidFills(end) && forall i | 0 <= i < |ss| :: ValidSection(ss[i])
    requires DistinctKeys(Items(ss))
    ensures var st := FileRun(START, FileText(ss, end));
            var values := HandleAll(map[], st.calls);
            && st.error == 0
            && (forall i | 0 <= i < |Items(ss)| &&
                  SameLetters(section, Items(ss)[i].section) && SameLetters(name, Items(ss)[i].entry.name) ::
                  Lookup(values, section, name, default_) == ItemValue(Items(ss)[i]))
            && ((forall i | 0 <= i < |Items(ss)| :: MakeKey(section, name) != ItemKey(Items(ss)[i])) ==>
                  Lookup(values, section, name, default_) == default_)
  {
    hide FileRun, HandleAll, FileText, ItemValue, MakeKey, ValidSection, Items, FileCalls, ValidFills, SameLetters;
    var st := RunFile(START, ss, end);
    FileItemsCalls(ss);
    assert [] + FileCalls(ss) == FileCalls(ss);
    var items := Items(ss);
    HandleItems(map[], items);
    forall i | 0 <= i < |items| && SameLetters(section, items[i].section) && SameLetters(name, items[i].entry.name)
      ensures MakeKey(section, name) == ItemKey(items[i])
    {
      KeyFoldsCase(section, name, items[i].section, items[i].entry.name);
    }
  }

  /** Lines joined by line feeds. */
  function Joined(first: string, more: seq<string>): string
    decreases |more|
  {
    if more == [] then first else Joined(first + "\n" + more[0], more[1..])
  }

  lemma {:induction false} AccumulatesJoined(first: string, more: seq<string>)
    requires first != ""
    ensures Accumulated(first, more) == Joined(first, more)
    decreases |more|
  {
    if more != [] {
      AccumulatesJoined(first + "\n" + more[0], more[1..]);
    }
  }

  lemma {:induction false} JoinedLength(first: string, more: seq<string>)
    ensures |Joined(first, more)| >= |first| + |more|
    ensures Joined("\n" + first, more) == "\n" + Joined(first, more)
    decreases |more|
  {
    if more != [] {
      JoinedLength(first + "\n" + more[0], more[1..]);
      assert "\n" + (first + "\n" + more[0]) == "\n" + first + "\n" + more[0];
    }
  }

  /** The value is its lines joined by line feeds, except that an empty first line leaves no line
      feed in front of the continuation lines. */
  lemma ValueIsJoined(first: string, more: seq<string>)
    requires forall i | 0 <= i < |more| :: more[i] != ""
    ensures Accumulated(first, more) == Joined(first, more) <==> first != "" || more == []
  {
    if first != "" {
      AccumulatesJoined(first, more);
    } else if more != [] {
      AccumulatesJoined(more[0], more[1..]);
      JoinedLength(more[0], more[1..]);
      assert "" + "\n" + more[0] == "\n" + more[0];
    }
  }
}
