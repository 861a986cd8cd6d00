/** The lines of a file and the lines that the INI parser counts. `fgets` cuts a line that does not
    fit the buffer, so the result code is the number of a line of the file, as include/ini.h says,
    when no line is that long. */
module IniLines {
  import opened Text
  import opened Ini
  import opened IniRoundTrip

  /** The lines of a text, each with its line feed. */
  function TextLines(text: string): seq<string>
    decreases |text|
  {
    if text == "" then []
    else
      var line := Upto(text, |text|);
      [line] + TextLines(text[|line|..])
  }

  predicate AllFit(lines: seq<string>) {
    forall i | 0 <= i < |lines| :: |lines[i]| < INI_MAX_LINE
  }

  lemma {:induction false} UptoFits(text: string, limit: nat)
    requires |Upto(text, |text|)| <= limit
    ensures Upto(text, limit) == Upto(text, |text|)
    decreases |text|
  {
    if text != "" && text[0] != '\n' {
      UptoFits(text[1..], limit - 1);
    }
  }

  lemma AllFitFirst(lines: seq<string>)
    requires lines != []
    ensures AllFit(lines) <==> |lines[0]| < INI_MAX_LINE && AllFit(lines[1..])
  {
    assert forall i | 0 < i < |lines| :: lines[i] == lines[1..][i - 1];
  }

  /** The parser counts the lines of the file if and only if all of them fit. */
  lemma {:induction false} CountsLinesIfAllFit(text: string)
    ensures Lines(text) == TextLines(text) <==> AllFit(TextLines(text))
    decreases |text|
  {
    hide Upto;
    if text != "" {
      var line := Upto(text, |text|);
      var rest := text[|line|..];
      assert TextLines(text)[0] == line && TextLines(text)[1..] == TextLines(rest);
      assert Lines(text)[0] == Chunk(text) && Lines(text)[1..] == Lines(text[|Chunk(text)|..]);
      if |line| < INI_MAX_LINE {
        UptoFits(text, INI_MAX_LINE - 1);
        CountsLinesIfAllFit(rest);
        AllFitFirst(TextLines(text));
      }
    }
  }

  /** As long as the lines fit, they are the pieces that are counted. */
  lemma {:induction false} CountsLinesThatFit(text: string, n: nat)
    requires n <= |TextLines(text)| && AllFit(TextLines(text)[..n])
    ensures n <= |Lines(text)| && Lines(text)[..n] == TextLines(text)[..n]
    decreases n
  {
    hide Upto;
    if n > 0 {
      var lines := TextLines(text);
      var line := Upto(text, |text|);
      var rest := text[|line|..];
      assert lines[..n][0] == lines[0] == line && lines[..n][1..] == lines[1..][..n - 1];
      AllFitFirst(lines[..n]);
      UptoFits(text, INI_MAX_LINE - 1);
      assert lines[1..] == TextLines(rest) && Lines(text)[1..] == Lines(rest);
      CountsLinesThatFit(rest, n - 1);
      assert Lines(text)[..n] == [line] + Lines(rest)[..n - 1];
      assert lines[..n] == [line] + TextLines(rest)[..n - 1];
    }
  }

  lemma SameBadLines(lines: seq<string>, others: seq<string>, n: nat)
    requires n <= |lines| && n <= |others| && lines[..n] == others[..n]
    ensures forall i | 0 <= i < n :: BadLine(START, lines, i) == BadLine(START, others, i)
  {
    hide KindOf, StateBefore;
    forall i | 0 <= i < n
      ensures BadLine(START, lines, i) == BadLine(START, others, i)
    {
      assert lines[i] == lines[..n][i] == others[..n][i] == others[i];
      assert lines[..i] == lines[..n][..i] == others[..n][..i] == others[..i];
    }
  }

  /** The result code is the number `e` of the first malformed line of the file, if the lines up to
      that one fit; without a malformed line it is 0, if all lines fit. What is behind does not count. */
  lemma ErrorIsFirstBadTextLine(text: string, e: nat)
    requires NumbersFirstBad(START, TextLines(text), e)
    requires AllFit(if e == 0 then TextLines(text) else TextLines(text)[..e])
    ensures FileRun(START, text).error == e
  {
    hide FileRun, KindOf, StateBefore, BadLine, Lines, TextLines, AllFit;
    ErrorIsFirstBadLine(text);
    if e == 0 {
      CountsLinesIfAllFit(text);
    } else {
      CountsLinesThatFit(text, e);
      SameBadLines(Lines(text), TextLines(text), e);
    }
  }

  /** There is always such a number. */
  lemma FirstBadTextLine(text: string) returns (e: nat)
    ensures NumbersFirstBad(START, TextLines(text), e)
  {
    hide StateBefore, NumbersFirstBad, TextLines;
    FirstError(START, TextLines(text));
    e := StateBefore(START, TextLines(text)).error;
  }

  /** A comment begins at `j`: a `;` behind white space. */
  predicate CommentAt(s: string, white: bool, j: nat) {
    j < |s| && s[j] == ';' && if j == 0 then white else IsSpace(s[j - 1])
  }

  predicate FreeAt(s: string, c: char, white: bool, i: nat) {
    i < |s| && s[i] == c && forall j: nat | j < i :: !CommentAt(s, white, j)
  }

  /** `c` stands in `s` in front of any comment. */
  ghost predicate Free(s: string, c: char, white: bool) {
    exists i :: FreeAt(s, c, white, i)
  }

  lemma FreeBehind(s: string, c: char, white: bool, i: nat)
    requires s != "" && s[0] != c && !CommentAt(s, white, 0)
    ensures FreeAt(s, c, white, i) ==> i > 0 && FreeAt(s[1..], c, IsSpace(s[0]), i - 1)
    ensures FreeAt(s[1..], c, IsSpace(s[0]), i) ==> FreeAt(s, c, white, i + 1)
  {
    var t, w := s[1..], IsSpace(s[0]);
    forall j: nat
      ensures CommentAt(t, w, j) == CommentAt(s, white, j + 1)
    {
      assert j < |t| ==> t[j] == s[j + 1];
      assert 0 < j < |t| ==> t[j - 1] == s[j];
    }
    hide CommentAt;
    assert i < |t| ==> t[i] == s[i + 1];
    if FreeAt(t, c, w, i) {
      assert forall j: nat | 0 < j < i + 1 :: CommentAt(s, white, j) == CommentAt(t, w, j - 1);
    }
  }

  lemma FreeOnward(s: string, c: char, white: bool)
    requires s != "" && s[0] != c && !CommentAt(s, white, 0)
    ensures Free(s, c, white) <==> Free(s[1..], c, IsSpace(s[0]))
  {
    var t, w := s[1..], IsSpace(s[0]);
    hide FreeAt, CommentAt;
    if Free(s, c, white) {
      var i: nat :| FreeAt(s, c, white, i);
      FreeBehind(s, c, white, i);
      assert FreeAt(t, c, w, i - 1);
    }
    if Free(t, c, w) {
      var i: nat :| FreeAt(t, c, w, i);
      FreeBehind(s, c, white, i);
      assert FreeAt(s, c, white, i + 1);
    }
  }

  lemma ScanGoesOn(s: string, c: char, white: bool)
    requires s != "" && s[0] != c && !(s[0] == ';' && white)
    ensures At(s, Scan(s, c, white)) == At(s[1..], Scan(s[1..], c, IsSpace(s[0])))
  {
  }

  lemma {:induction false} ScanFindsFree(s: string, c: char, white: bool)
    requires c == '=' || c == ':' || c == ']'
    ensures At(s, Scan(s, c, white)) == c <==> Free(s, c, white)
    decreases |s|
  {
    if s != "" {
      var t, w := s[1..], IsSpace(s[0]);
      ScanFindsFree(t, c, w);
      if s[0] == c {
        assert FreeAt(s, c, white, 0);
      } else if s[0] == ';' && white {
        assert CommentAt(s, white, 0);
      } else {
        ScanGoesOn(s, c, white);
        FreeOnward(s, c, white);
      }
    }
  }

  lemma {:induction false} ScanEnds(s: string, c: char, white: bool)
    ensures var i := Scan(s, c, white); i == |s| || s[i] == c || s[i] == ';'
    decreases |s|
  {
    if s != "" && s[0] != c && !(s[0] == ';' && white) {
      ScanEnds(s[1..], c, IsSpace(s[0]));
    }
  }

  /** The malformed lines: `t` is the text of the line without outer white space, `moved` tells whether
      something stands in front of it. It is no comment and no continuation, and lacks a `]` behind a
      `[`, or otherwise both a `=` and a `:`, in front of any comment. */
  lemma MalformedLines(t: string, moved: bool, prevName: string)
    ensures Classify(t, moved, prevName) == Malformed <==>
              && t != "" && t[0] != ';' && t[0] != '#' && !(moved && prevName != "")
              && if t[0] == '[' then !Free(t[1..], ']', false) else !Free(t, '=', false) && !Free(t, ':', false)
  {
    hide Scan, StripRight, ValueText, Free;
    ScanFindsFree(t, '=', false);
    ScanFindsFree(t, ':', false);
    ScanEnds(t, ':', false);
    if t != "" {
      ScanFindsFree(t[1..], ']', false);
    }
  }

  /** The UTF-8 byte order mark. */
  const MARK: string := [0xEF as char, 0xBB as char, 0xBF as char]

  lemma UptoOne(x: char, text: string, limit: nat)
    requires x != '\n' && x != '\0'
    ensures Upto([x] + text, limit + 1) == [x] + Upto(text, limit)
    ensures UptoNul([x] + text) == [x] + UptoNul(text)
  {
    assert ([x] + text)[1..] == text;
  }

  lemma MarkIs(s: string)
    ensures MARK + s == [0xEF as char] + ([0xBB as char] + ([0xBF as char] + s))
  {
  }

  lemma UptoMark(text: string, limit: nat)
    ensures Upto(MARK + text, limit + 3) == MARK + Upto(text, limit)
    ensures UptoNul(MARK + text) == MARK + UptoNul(text)
  {
    var a, b, c := 0xEF as char, 0xBB as char, 0xBF as char;
    hide Upto, UptoNul;
    UptoOne(c, text, limit);
    UptoOne(b, [c] + text, limit + 1);
    UptoOne(a, [b] + ([c] + text), limit + 2);
    MarkIs(text);
    MarkIs(Upto(text, limit));
    MarkIs(UptoNul(text));
    hide MARK;
  }

  lemma ClassifyAtStart(t: string, moved: bool, other: bool)
    ensures Classify(t, moved, "") == Classify(t, other, "")
  {
  }

  lemma StepMark(line: string)
    requires !Marked(UptoNul(line)) && UptoNul(MARK + line) == MARK + UptoNul(line)
    ensures FileStep(START, MARK + line) == FileStep(START, line)
  {
    var s := UptoNul(line);
    var t := SkipSpaces(StripRight(s));
    hide UptoNul, StripRight, SkipSpaces, Classify;
    assert (MARK + s)[3..] == s && Marked(MARK + s);
    var moved := |s| < |MARK + s| || |t| < |StripRight(s)|;
    assert KindOf(START, MARK + line) == Classify(t, moved, "");
    ClassifyAtStart(t, moved, |t| < |StripRight(s)|);
    assert KindOf(START, line) == Classify(t, |t| < |StripRight(s)|, "");
    hide KindOf;
  }

  lemma RunChunk(st: FileState, text: string)
    requires text != ""
    ensures FileRun(st, text) == FileRun(FileStep(st, Chunk(text)), text[|Chunk(text)|..])
  {
  }

  lemma CutMark(text: string, line: string)
    requires |line| <= |text|
    ensures (MARK + text)[|MARK + line|..] == text[|line|..]
  {
  }

  /** A byte order mark at the start of a file is ignored. */
  lemma MarkIsIgnored(text: string)
    requires text != "" && |Upto(text, |text|)| + 3 < 200 && !Marked(UptoNul(Upto(text, |text|)))
    ensures FileRun(START, MARK + text) == FileRun(START, text)
  {
    var line := Upto(text, |text|);
    UptoFits(text, 196);
    UptoFits(text, 199);
    UptoMark(text, 196);
    UptoMark(line, 0);
    StepMark(line);
    assert Chunk(text) == line && Chunk(MARK + text) == MARK + line;
    RunChunk(START, text);
    RunChunk(START, MARK + text);
    hide *;
    CutMark(text, line);
  }

  /** A comment behind an empty value is the value. */
  lemma EmptyValueKeepsComment(space: string, comment: string)
    requires White(space) && Plain(comment) && Trimmed(comment) && Uncommented(comment) && comment[0] == ';'
    ensures ValueText(space + comment) == comment
  {
    ValueTextSkips(space, comment);
    ValueTextOfTrimmed(comment);
  }

  function Letters(n: nat): (s: string)
    ensures |s| == n && forall i | 0 <= i < n :: s[i] == 'a'
  {
    seq(n, _ => 'a')
  }

  lemma {:induction false} UptoPlain(text: string, limit: nat)
    requires Plain(text)
    ensures Upto(text, limit) == if |text| <= limit then text else text[..limit]
    decreases |text|
  {
    if text != "" && limit > 0 {
      UptoPlain(text[1..], limit - 1);
      assert |text| > limit ==> text[..limit] == [text[0]] + text[1..][..limit - 1];
    }
  }

  lemma {:induction false} ScanMisses(s: string, c: char, white: bool)
    requires c !in s && ';' !in s
    ensures Scan(s, c, white) == |s|
    decreases |s|
  {
    if s != "" {
      ScanMisses(s[1..], c, IsSpace(s[0]));
    }
  }

  lemma LettersAreMalformed(st: FileState, n: nat)
    requires n > 0 && st.prevName == ""
    ensures KindOf(st, Letters(n)) == Malformed
  {
    var s := Letters(n);
    UptoNulOfPlain(s);
    StripRightTrimmed(s);
    ScanMisses(s, '=', false);
    ScanMisses(s, ':', false);
  }

  lemma CommentIsIgnored(st: FileState, n: nat)
    ensures KindOf(st, ";" + Letters(n)) == Ignored
  {
    var s := ";" + Letters(n);
    assert forall i | 0 < i < |s| :: s[i] == 'a';
    UptoNulOfPlain(s);
    StripRightTrimmed(s);
  }

  lemma LongCommentIsPlain(n: nat)
    ensures Plain(";" + Letters(n))
  {
    var text := ";" + Letters(n);
    assert forall i | 0 < i < |text| :: text[i] == 'a';
  }

  /** The pieces of a comment that is too long. */
  lemma PiecesOfLongComment(n: nat)
    requires n >= 199
    ensures var lines := Lines(";" + Letters(n));
            |lines| >= 2 && lines[0] == ";" + Letters(198) && lines[1] != "" && lines[1] == Letters(|lines[1]|)
  {
    hide Upto;
    var text, rest := ";" + Letters(n), Letters(n - 198);
    LongCommentIsPlain(n);
    UptoPlain(text, 199);
    UptoPlain(rest, 199);
    assert Chunk(text) == ";" + Letters(198) && text[199..] == rest;
    assert Lines(text)[0] == Chunk(text) && Lines(text)[1..] == Lines(rest) && Lines(text)[1] == Chunk(rest);
    assert Chunk(rest) == Letters(|Chunk(rest)|);
  }

  lemma LongCommentIsOneLine(n: nat)
    ensures TextLines(";" + Letters(n)) == [";" + Letters(n)]
  {
    hide Upto;
    var text := ";" + Letters(n);
    LongCommentIsPlain(n);
    UptoPlain(text, |text|);
    assert text[|text|..] == "" && TextLines("") == [];
  }

  /** A file of one line, a comment that is too long: the parser reports a malformed line 2, though
      the only line of the file is well-formed. */
  lemma LongCommentIsMisread(n: nat)
    requires n >= 199
    ensures var text := ";" + Letters(n);
            && TextLines(text) == [text] && NumbersFirstBad(START, TextLines(text), 0)
            && FileRun(START, text).error == 2
  {
    hide KindOf, FileRun, Upto, Lines, TextLines, Letters;
    var text := ";" + Letters(n);
    LongCommentIsOneLine(n);
    CommentIsIgnored(START, n);
    assert [text][..0] == [];
    PiecesOfLongComment(n);
    var lines := Lines(text);
    CommentIsIgnored(START, 198);
    assert lines[..0] == [] && lines[..1] == [lines[0]] && lines[..1][..0] == [];
    LettersAreMalformed(FileStep(START, lines[0]), |lines[1]|);
    assert !BadLine(START, lines, 0) && BadLine(START, lines, 1);
    ErrorIsFirstBadLine(text);
  }
}
