/** `ini_parse_file` on its line buffer: NUL-terminated strings, pointers into the buffer and
    edits in place (src/ini.c), proved to do what the pure line parser `Ini` does. */
module IniBuffer {
  import opened Text
  import opened Ini

  const NUL := '\0'

  /** The C string that starts at offset `p`. */
  function StrAt(a: seq<char>, p: nat): (t: string)
    requires p <= |a|
    ensures p + |t| <= |a|
  {
    UptoNul(a[p..])
  }

  /** There is a NUL at or behind `p`. */
  predicate Terminated(a: seq<char>, p: nat) {
    p <= |a| && p + |StrAt(a, p)| < |a|
  }

  lemma {:induction false} UptoNulIs(t: string, rest: string)
    requires NUL !in t
    ensures UptoNul(t + [NUL] + rest) == t
  {
    var s := t + [NUL] + rest;
    if t != "" {
      assert s[0] == t[0] && s[1..] == t[1..] + [NUL] + rest;
      UptoNulIs(t[1..], rest);
    }
  }

  lemma StrIs(a: seq<char>, p: nat, t: string)
    requires p + |t| < |a| && a[p..p + |t|] == t && NUL !in t && a[p + |t|] == NUL
    ensures StrAt(a, p) == t && Terminated(a, p)
  {
    UptoNulIs(t, a[p + |t| + 1..]);
    assert a[p..] == t + [NUL] + a[p + |t| + 1..];
  }

  lemma StrFacts(a: seq<char>, p: nat)
    requires Terminated(a, p)
    ensures var t := StrAt(a, p);
            && NUL !in t && a[p..p + |t|] == t && a[p + |t|] == NUL
            && forall i | 0 <= i <= |t| :: a[p + i] == At(t, i)
  {
    var t := StrAt(a, p);
    assert a[p..][..|t|] == a[p..p + |t|];
    assert forall i | 0 <= i < |t| :: t[i] == a[p + i];
  }

  /** The string that starts further on inside a string. */
  lemma StrFrom(a: seq<char>, p: nat, i: nat)
    requires Terminated(a, p) && i <= |StrAt(a, p)|
    ensures Terminated(a, p + i) && StrAt(a, p + i) == StrAt(a, p)[i..]
  {
    StrFacts(a, p);
    var t := StrAt(a, p);
    assert a[p + i..p + |t|] == t[i..];
    StrIs(a, p + i, t[i..]);
  }

  /** Cutting a string by a NUL. */
  lemma StrCut(a: seq<char>, b: seq<char>, p: nat, i: nat)
    requires Terminated(a, p) && i <= |StrAt(a, p)| && b == a[p + i := NUL]
    ensures Terminated(b, p) && StrAt(b, p) == StrAt(a, p)[..i]
  {
    StrFacts(a, p);
    var t := StrAt(a, p);
    assert b[p..p + i] == t[..i];
    StrIs(b, p, t[..i]);
  }

  /** A string does not change when the buffer changes elsewhere. */
  lemma StrSame(a: seq<char>, b: seq<char>, p: nat)
    requires Terminated(a, p) && |a| == |b|
    requires var n := p + |StrAt(a, p)| + 1; a[p..n] == b[p..n]
    ensures Terminated(b, p) && StrAt(b, p) == StrAt(a, p)
  {
    StrFacts(a, p);
    var t := StrAt(a, p);
    var n := p + |t|;
    assert b[p..n] == b[p..n + 1][..|t|] == a[p..n + 1][..|t|] == a[p..n];
    assert b[n] == b[p..n + 1][|t|] == a[p..n + 1][|t|] == a[n];
    StrIs(b, p, t);
  }

  lemma StripRightKeeps(t: string, k: nat)
    requires k <= |t| && (k == 0 || !IsSpace(t[k - 1]))
    requires StripRight(t[..k]) == StripRight(t)
    ensures StripRight(t) == t[..k]
  {
  }

  lemma StripRightStep(t: string, k: nat)
    requires 0 < k <= |t| && IsSpace(t[k - 1])
    ensures StripRight(t[..k]) == StripRight(t[..k - 1])
  {
    assert t[..k][..k - 1] == t[..k - 1];
  }

  /** `rstrip`. */
  method RStrip(line: array<char>, start: nat)
    requires Terminated(line[..], start)
    modifies line
    ensures Terminated(line[..], start) && StrAt(line[..], start) == StripRight(old(StrAt(line[..], start)))
    ensures line[..start] == old(line[..start])
    ensures var n := start + |old(StrAt(line[..], start))|; line[n..] == old(line[n..])
  {
    hide StripRight, UptoNul;
    ghost var a := line[..];
    ghost var t := StrAt(a, start);
    StrFacts(a, start);
    var p := start + |StrAt(line[..], start)|;
    ghost var end := p;
    assert t[..|t|] == t;
    while p > start && IsSpace(line[p - 1])
      invariant start <= p <= end < |a| == line.Length
      invariant line[..p] == a[..p] && line[p] == NUL && line[end..] == a[end..]
      invariant StripRight(t[..p - start]) == StripRight(t)
      decreases p
    {
      assert line[p - 1] == a[p - 1] == t[p - 1 - start];
      StripRightStep(t, p - start);
      p := p - 1;
      line[p] := NUL;
    }
    ghost var k := p - start;
    if k > 0 {
      assert line[p - 1] == a[p - 1] == t[k - 1];
    }
    StripRightKeeps(t, k);
    assert line[start..p] == t[..k] by {
      assert line[start..p] == line[..p][start..] == a[..p][start..] == t[..k];
    }
    StrIs(line[..], start, t[..k]);
    assert line[..start] == line[..p][..start] == a[..p][..start];
  }

  /** `lskip`. */
  method LSkip(line: array<char>, start: nat) returns (p: nat)
    requires Terminated(line[..], start)
    ensures Terminated(line[..], p) && StrAt(line[..], p) == SkipSpaces(StrAt(line[..], start))
    ensures start <= p && |StrAt(line[..], p)| == |StrAt(line[..], start)| - (p - start)
  {
    hide UptoNul;
    ghost var a := line[..];
    ghost var t := StrAt(a, start);
    p := start;
    StrFacts(a, start);
    while line[p] != NUL && IsSpace(line[p])
      invariant start <= p <= start + |t| && start + |t| < |a| && a == line[..]
      invariant SkipSpaces(t[p - start..]) == SkipSpaces(t)
      decreases |a| - p
    {
      assert line[p] == At(t, p - start);
      assert t[p - start..][1..] == t[p + 1 - start..];
      p := p + 1;
    }
    assert line[p] == At(t, p - start);
    StrFrom(a, start, p - start);
  }

  /** `find_char_or_comment`. */
  method FindCharOrComment(line: array<char>, start: nat, c: char) returns (p: nat)
    requires Terminated(line[..], start)
    ensures p == start + Scan(StrAt(line[..], start), c, false)
  {
    hide UptoNul;
    ghost var a := line[..];
    ghost var t := StrAt(a, start);
    p := start;
    StrFacts(a, start);
    var wasWhitespace := false;
    while line[p] != NUL && line[p] != c && !(wasWhitespace && line[p] == ';')
      invariant start <= p <= start + |t| && start + |t| < |a| && a == line[..]
      invariant Scan(t, c, false) == p - start + Scan(t[p - start..], c, wasWhitespace)
      decreases |a| - p
    {
      assert line[p] == At(t, p - start);
      assert t[p - start..][1..] == t[p + 1 - start..];
      wasWhitespace := IsSpace(line[p]);
      p := p + 1;
    }
    assert line[p] == At(t, p - start);
  }

  /** Where the piece that `fgets` reads goes on. */
  lemma {:induction false} UptoGoesOn(text: string, limit: nat, n: nat)
    requires n <= |Upto(text, limit)|
    ensures n < |Upto(text, limit)| <==> n < |text| && n < limit && (n == 0 || text[n - 1] != '\n')
    decreases |text|
  {
    if n > 0 && text[0] != '\n' {
      UptoGoesOn(text[1..], limit - 1, n - 1);
    }
  }

  lemma {:induction false} UptoIsPrefix(text: string, limit: nat)
    ensures Upto(text, limit) == text[..|Upto(text, limit)|]
    decreases |text|
  {
    if text != "" && limit > 0 && text[0] != '\n' {
      UptoIsPrefix(text[1..], limit - 1);
    }
  }

  /** The string in front of a NUL at `n`, which may be shorter than `n`. */
  lemma FirstString(a: seq<char>, n: nat)
    requires n < |a| && a[n] == NUL
    ensures Terminated(a, 0) && StrAt(a, 0) == UptoNul(a[..n])
  {
    var t := UptoNul(a[..n]);
    assert a[0..|t|] == a[..n][..|t|] == t;
    assert |t| < n ==> a[|t|] == a[..n][|t|];
    StrIs(a, 0, t);
  }

  /** `fgets`: the next piece of the file and a NUL; what is behind it in the buffer stays. */
  method FGets(line: array<char>, text: string) returns (n: nat)
    requires line.Length == INI_MAX_LINE
    modifies line
    ensures n == |Chunk(text)|
    ensures Terminated(line[..], 0) && StrAt(line[..], 0) == UptoNul(Chunk(text))
  {
    hide UptoNul, Upto, StrAt, Terminated;
    ghost var size := |Chunk(text)|;
    n := 0;
    var stop := false;
    UptoGoesOn(text, INI_MAX_LINE - 1, n);
    while n < |text| && n < INI_MAX_LINE - 1 && !stop
      invariant n <= size && n <= |text| && n <= INI_MAX_LINE - 1
      invariant n < size <==> n < |text| && n < INI_MAX_LINE - 1 && !stop
      invariant forall k | 0 <= k < n :: line[k] == text[k]
      decreases |text| - n
    {
      line[n] := text[n];
      stop := text[n] == '\n';
      n := n + 1;
      UptoGoesOn(text, INI_MAX_LINE - 1, n);
    }
    line[n] := NUL;
    assert line[..][..n] == text[..n];
    UptoIsPrefix(text, INI_MAX_LINE - 1);
    FirstString(line[..], n);
  }
}
