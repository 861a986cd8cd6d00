/** Substring search, `str_split` and `fast_atou` (src/util.cpp). */
module Split {
  import opened Text

  predicate OccursAt(s: string, d: string, i: int) {
    0 <= i && i + |d| <= |s| && s[i..i + |d|] == d
  }

  const NPOS := -1

  /** `std::string::find`: the first occurrence of `d` at or after `from`. */
  function Find(s: string, d: string, from: nat): (r: int)
    ensures r == NPOS || (from <= r && OccursAt(s, d, r))
    ensures forall i | from <= i && (r == NPOS || i < r) :: !OccursAt(s, d, i)
    decreases |s| - from
  {
    if from + |d| > |s| then NPOS
    else if s[from..from + |d|] == d then from
    else Find(s, d, from + 1)
  }

  predicate Contains(s: string, d: string) {
    Find(s, d, 0) != NPOS
  }

  lemma FindIs(s: string, d: string, from: nat, r: nat)
    requires from <= r && OccursAt(s, d, r)
    requires forall i | from <= i < r :: !OccursAt(s, d, i)
    ensures Find(s, d, from) == r
  {
  }

  lemma OccursShift(s: string, d: string, k: nat, i: int)
    requires k <= |s| && i >= k
    ensures OccursAt(s, d, i) <==> OccursAt(s[k..], d, i - k)
  {
    if i + |d| <= |s| {
      assert s[k..][i - k..i - k + |d|] == s[i..i + |d|];
    }
  }

  lemma FindShift(s: string, d: string, k: nat)
    requires k <= |s|
    ensures var r := Find(s[k..], d, 0);
            Find(s, d, k) == if r == NPOS then NPOS else k + r
  {
    var r, q := Find(s[k..], d, 0), Find(s, d, k);
    hide Find;
    forall i: int | i >= 0
      ensures OccursAt(s[k..], d, i) <==> OccursAt(s, d, k + i)
    {
      OccursShift(s, d, k, k + i);
    }
    if q == NPOS {
      assert r == NPOS || OccursAt(s, d, k + r);
    } else {
      assert OccursAt(s[k..], d, q - k);
      FindIs(s[k..], d, 0, q - k);
    }
  }

  lemma DiffersAt(s: string, d: string, i: nat, k: nat)
    requires k < |d| && i + k < |s| && s[i + k] != d[k]
    ensures !OccursAt(s, d, i)
  {
    if i + |d| <= |s| {
      assert s[i..i + |d|][k] == s[i + k];
    }
  }

  /** An occurrence that ends inside `a` is an occurrence in `a`. */
  lemma OccursInPrefix(a: string, b: string, d: string, i: int)
    requires i + |d| <= |a|
    ensures OccursAt(a + b, d, i) <==> OccursAt(a, d, i)
  {
    if 0 <= i {
      assert (a + b)[i..i + |d|] == a[i..i + |d|];
    }
  }

  lemma FindCharacter(a: string, c: char, b: string)
    requires c !in a
    ensures Find(a + [c] + b, [c], 0) == |a|
  {
    var s := a + [c] + b;
    assert s[|a|..|a| + 1] == [c];
    forall i | 0 <= i < |a|
      ensures !OccursAt(s, [c], i)
    {
      assert s[i..i + 1] == [a[i]];
    }
    FindIs(s, [c], 0, |a|);
  }

  function Join(ts: seq<string>, d: string): string {
    if ts == [] then ""
    else if |ts| == 1 then ts[0]
    else ts[0] + d + Join(ts[1..], d)
  }

  /** The tokens between the successive leftmost occurrences of `d`. */
  function Tokens(s: string, d: string): (ts: seq<string>)
    requires d != ""
    ensures ts != []
    decreases |s|
  {
    var r := Find(s, d, 0);
    if r == NPOS then [s] else [s[..r]] + Tokens(s[r + |d|..], d)
  }

  lemma NextToken(s: string, d: string)
    requires d != "" && Find(s, d, 0) != NPOS
    ensures var r := Find(s, d, 0);
            && 0 <= r && r + |d| <= |s|
            && Tokens(s, d) == [s[..r]] + Tokens(s[r + |d|..], d)
  {
    hide Find;
  }

  /** `str_split`. With an empty delimiter the program's loop does not end. */
  method StrSplit(s: string, delimiter: string) returns (tokens: seq<string>)
    requires delimiter != ""
    ensures tokens == Tokens(s, delimiter)
  {
    hide Find, OccursAt;
    tokens := [];
    var lastPos: nat := 0;
    var pos := Find(s, delimiter, lastPos);
    ghost var rest := s;
    FindShift(s, delimiter, 0);
    assert s[0..] == s;
    while pos != NPOS
      invariant lastPos <= |s| && rest == s[lastPos..]
      invariant pos == var r := Find(rest, delimiter, 0); if r == NPOS then NPOS else lastPos + r
      invariant tokens + Tokens(rest, delimiter) == Tokens(s, delimiter)
      decreases |rest|
    {
      NextToken(rest, delimiter);
      assert rest[..pos - lastPos] == s[lastPos..pos];
      tokens := tokens + [s[lastPos..pos]];
      lastPos := pos + |delimiter|;
      rest := rest[Find(rest, delimiter, 0) + |delimiter|..];
      pos := Find(s, delimiter, lastPos);
      FindShift(s, delimiter, lastPos);
    }
    tokens := tokens + [s[lastPos..]];
  }

  /** Joining the tokens gives the input back, and no token contains the delimiter. */
  lemma {:induction false} TokensJoin(s: string, d: string)
    requires d != ""
    ensures Join(Tokens(s, d), d) == s
    ensures forall t | t in Tokens(s, d) :: !Contains(t, d)
    decreases |s|
  {
    var r := Find(s, d, 0);
    if r != NPOS {
      var rest := s[r + |d|..];
      TokensJoin(rest, d);
      assert s == s[..r] + d + rest;
      assert !Contains(s[..r], d) by {
        forall i: int | i + |d| <= r
          ensures OccursAt(s[..r], d, i) == OccursAt(s, d, i)
        {
          assert s == s[..r] + s[r..];
          OccursInPrefix(s[..r], s[r..], d, i);
        }
      }
      assert Tokens(s, d)[1..] == Tokens(rest, d);
    }
  }

  /** No occurrence of `d` in `t + d` starts before the appended one. */
  predicate EndsCleanly(t: string, d: string) {
    Find(t + d, d, 0) == |t|
  }

  predicate Separable(ts: seq<string>, d: string) {
    && ts != []
    && (forall i | 0 <= i < |ts| - 1 :: EndsCleanly(ts[i], d))
    && !Contains(ts[|ts| - 1], d)
  }

  /** Where the delimiter is found in `t + d + more` depends on `t + d` only. */
  lemma FirstToken(t: string, d: string, more: string)
    requires d != ""
    ensures Find(t + d + more, d, 0) == |t| <==> EndsCleanly(t, d)
  {
    forall i: int | i <= |t|
      ensures OccursAt(t + d + more, d, i) == OccursAt(t + d, d, i)
    {
      OccursInPrefix(t + d, more, d, i);
    }
    assert OccursAt(t + d, d, |t|);
    if EndsCleanly(t, d) {
      FindIs(t + d + more, d, 0, |t|);
    }
    if Find(t + d + more, d, 0) == |t| {
      FindIs(t + d, d, 0, |t|);
    }
  }

  lemma JoinMany(ts: seq<string>, d: string)
    requires |ts| > 1
    ensures Join(ts, d) == ts[0] + d + Join(ts[1..], d)
  {
  }

  lemma OneToken(s: string, d: string)
    requires d != "" && Find(s, d, 0) == NPOS
    ensures Tokens(s, d) == [s]
  {
    hide Find;
  }

  lemma SplitJoinOne(t: string, d: string)
    requires d != ""
    ensures Tokens(Join([t], d), d) == [t] <==> Separable([t], d)
  {
    hide Find;
    if Tokens(t, d) == [t] {
      TokensJoin(t, d);
      assert t in Tokens(t, d);
    }
  }

  lemma SeparableTail(ts: seq<string>, d: string)
    requires |ts| > 1
    ensures Separable(ts, d) <==> EndsCleanly(ts[0], d) && Separable(ts[1..], d)
  {
    hide EndsCleanly, Contains;
    var us := ts[1..];
    assert us[|us| - 1] == ts[|ts| - 1];
    assert forall i | 0 <= i < |us| - 1 :: us[i] == ts[i + 1];
    if EndsCleanly(ts[0], d) && Separable(us, d) {
      forall i | 0 <= i < |ts| - 1
        ensures EndsCleanly(ts[i], d)
      {
        assert i > 0 ==> ts[i] == us[i - 1];
      }
    }
    if Separable(ts, d) {
      forall i | 0 <= i < |us| - 1
        ensures EndsCleanly(us[i], d)
      {
        assert us[i] == ts[i + 1];
      }
    }
  }

  /** Splitting a join gives the tokens back exactly when each token but the last ends cleanly
      before the delimiter and the last does not contain it. */
  lemma {:induction false} SplitJoin(ts: seq<string>, d: string)
    requires ts != [] && d != ""
    ensures Tokens(Join(ts, d), d) == ts <==> Separable(ts, d)
    decreases |ts|
  {
    hide Find, Tokens, Join, Separable, EndsCleanly, OccursAt, Contains;
    if |ts| == 1 {
      SplitJoinOne(ts[0], d);
      assert ts == [ts[0]];
    } else {
      var t, us := ts[0], ts[1..];
      var more := Join(us, d);
      SplitJoin(us, d);
      FirstToken(t, d, more);
      SeparableTail(ts, d);
      JoinMany(ts, d);
      assert ts == [t] + us;
      var s := t + d + more;
      var r := Find(s, d, 0);
      if r == NPOS {
        OneToken(s, d);
      } else {
        NextToken(s, d);
        if r == |t| {
          assert s[..r] == t && s[r + |d|..] == more;
          assert Tokens(s, d)[1..] == Tokens(more, d);
        } else {
          assert Tokens(s, d)[0] == s[..r];
        }
      }
    }
  }

  /** For a one-character delimiter a token ends cleanly unless it contains the character. */
  lemma CleanCharacter(t: string, c: char)
    ensures Contains(t, [c]) <==> c in t
    ensures EndsCleanly(t, [c]) <==> c !in t
  {
    forall i: int | 0 <= i < |t|
      ensures OccursAt(t, [c], i) <==> t[i] == c
      ensures OccursAt(t + [c], [c], i) <==> t[i] == c
    {
      assert t[i..i + 1] == [t[i]];
      OccursInPrefix(t, [c], [c], i);
    }
    assert OccursAt(t + [c], [c], |t|);
    if c !in t {
      FindIs(t + [c], [c], 0, |t|);
    } else {
      var i :| 0 <= i < |t| && t[i] == c;
      assert OccursAt(t, [c], i) && OccursAt(t + [c], [c], i);
    }
  }

  /** For one character: splitting any join of tokens without it returns the tokens. */
  lemma SplitJoinCharacter(ts: seq<string>, c: char)
    requires ts != []
    ensures Tokens(Join(ts, [c]), [c]) == ts <==> forall t | t in ts :: c !in t
  {
    SplitJoin(ts, [c]);
    forall i | 0 <= i < |ts|
      ensures Contains(ts[i], [c]) <==> c in ts[i]
      ensures EndsCleanly(ts[i], [c]) <==> c !in ts[i]
    {
      CleanCharacter(ts[i], c);
    }
    if Separable(ts, [c]) {
      forall t | t in ts
        ensures c !in t
      {
        var i :| 0 <= i < |ts| && ts[i] == t;
      }
    }
  }

  /** Unsigned arithmetic modulo 2^32. */
  function Wrap(n: int): int {
    n % 0x1_0000_0000
  }

  /** The value of a `char` as the program's `*str`: negative from code 128 on. */
  function CharValue(c: char): int
  {
    if c as int < 128 then c as int else c as int - 256
  }

  /** The weighted sum that `fast_atou` evaluates, without wrap-around. */
  function AtouSum(s: string): int {
    if s == "" then 0 else 10 * AtouSum(s[..|s| - 1]) + CharValue(s[|s| - 1]) - 48
  }

  lemma ModShift(n: int, k: int)
    ensures Wrap(n - 0x1_0000_0000 * k) == Wrap(n)
  {
  }

  lemma WrapHorner(v: int, n: int, k: int)
    requires v == Wrap(n)
    ensures Wrap(Wrap(Wrap(2 * v) + Wrap(8 * v)) + k) == Wrap(10 * n + k)
  {
    var m := 0x1_0000_0000;
    var q := n / m;
    assert n == m * q + v;
    var q2, q8 := (2 * v) / m, (8 * v) / m;
    var a := Wrap(2 * v) + Wrap(8 * v);
    assert a == 10 * v - m * (q2 + q8);
    var qa := a / m;
    assert Wrap(a) + k == 10 * n + k - m * (10 * q + q2 + q8 + qa);
    ModShift(10 * n + k, 10 * q + q2 + q8 + qa);
  }

  lemma {:induction false} DigitSum(s: string)
    requires IsDigits(s)
    ensures AtouSum(s) == DecimalValue(s)
  {
    if s != "" {
      DigitSum(s[..|s| - 1]);
      assert IsDigit(s[|s| - 1]);
    }
  }

  /** Other characters count by their signed codes. */
  lemma SignedCodes(c: char)
    requires c as int < 256
    ensures AtouSum([c]) == if c as int < 128 then c as int - 48 else c as int - 304
  {
    assert [c][..0] == "";
  }

  /** `fast_atou`: shifts and additions of a 32-bit unsigned value. A null pointer gives 0 there. */
  method FastAtou(str: string) returns (val: int)
    ensures val == Wrap(AtouSum(str))
    ensures IsDigits(str) ==> val == Wrap(DecimalValue(str))
  {
    val := 0;
    var i := 0;
    assert str[..0] == "";
    while i < |str|
      invariant i <= |str|
      invariant val == Wrap(AtouSum(str[..i]))
    {
      assert str[..i + 1][..i] == str[..i];
      WrapHorner(val, AtouSum(str[..i]), CharValue(str[i]) - 48);
      val := Wrap(Wrap(Wrap(val * 2) + Wrap(val * 8)) + (CharValue(str[i]) - 48));
      i := i + 1;
    }
    assert str[..i] == str;
    if IsDigits(str) {
      DigitSum(str);
    }
  }
}
