/** Character classes of the C locale, decimal numerals and the C library's `atoi`.

    A byte of the program is a Dafny `char`. The program's `char` is signed, so a code of
    128 or more stands for a negative value there. */
module Text {

  const INT_MAX := 0x7FFF_FFFF

  /** `isspace` in the C locale. */
  predicate IsSpace(c: char) {
    c == ' ' || '\t' <= c <= '\r'
  }

  predicate IsDigit(c: char) {
    '0' <= c <= '9'
  }

  predicate IsDigits(s: string) {
    forall i | 0 <= i < |s| :: IsDigit(s[i])
  }

  function DigitValue(c: char): int {
    c as int - '0' as int
  }

  function ToLower(c: char): char {
    if 'A' <= c <= 'Z' then c - 'A' + 'a' else c
  }

  function Lower(s: string): (t: string)
    ensures |t| == |s|
  {
    seq(|s|, i requires 0 <= i < |s| => ToLower(s[i]))
  }

  /** `t` is `s` with the letters A to Z moved to the codes 32 higher. */
  predicate Folded(s: string, t: string) {
    && |t| == |s|
    && forall i | 0 <= i < |s| :: t[i] as int == s[i] as int + (if 65 <= s[i] as int <= 90 then 32 else 0)
  }

  lemma LowerIsFolded(s: string)
    ensures Folded(s, Lower(s))
  {
  }

  predicate NoCapitals(s: string) {
    forall i | 0 <= i < |s| :: !(65 <= s[i] as int <= 90)
  }

  /** The same character, or the two cases of a letter, whose codes are 32 apart. */
  predicate SameLetter(a: char, b: char) {
    || a == b
    || (65 <= a as int <= 90 && a as int + 32 == b as int)
    || (65 <= b as int <= 90 && b as int + 32 == a as int)
  }

  /** Equal up to letter case. */
  predicate SameLetters(s: string, t: string) {
    |s| == |t| && forall i | 0 <= i < |s| :: SameLetter(s[i], t[i])
  }

  /** Folded texts are equal exactly if the texts are equal up to letter case. */
  lemma LowerSame(s: string, t: string)
    ensures Lower(s) == Lower(t) <==> SameLetters(s, t)
  {
    if Lower(s) == Lower(t) {
      assert |s| == |t|;
      forall i | 0 <= i < |s|
        ensures SameLetter(s[i], t[i])
      {
        assert Lower(s)[i] == Lower(t)[i];
      }
    }
    if SameLetters(s, t) {
      assert forall i | 0 <= i < |s| :: SameLetter(s[i], t[i]);
      assert Lower(s) == Lower(t);
    }
  }

  lemma LowerOfSmall(s: string)
    requires NoCapitals(s)
    ensures Lower(s) == s
  {
  }

  /** Folding a text gives a text `t` without capitals exactly if it is `t` up to letter case. */
  lemma LowerIs(s: string, t: string)
    requires NoCapitals(t)
    ensures Lower(s) == t <==> SameLetters(s, t)
  {
    LowerSame(s, t);
    LowerOfSmall(t);
  }

  /** `n` characters with consecutive codes. */
  function Consecutive(c: char, n: nat): (s: string)
    requires c as int + n <= 128
    ensures |s| == n && forall i | 0 <= i < n :: s[i] == c + i as char
  {
    if n == 0 then "" else Consecutive(c, n - 1) + [c + (n - 1) as char]
  }

  /** Concatenation of a list of strings. */
  function Flat(ss: seq<string>): string {
    if ss == [] then "" else ss[0] + Flat(ss[1..])
  }

  lemma {:induction false} FlatConcat(a: seq<string>, b: seq<string>)
    ensures Flat(a + b) == Flat(a) + Flat(b)
  {
    if a == [] {
      assert a + b == b;
    } else {
      assert (a + b)[1..] == a[1..] + b;
      FlatConcat(a[1..], b);
    }
  }

  /** The value of a decimal numeral, most significant digit first. */
  function DecimalValue(s: string): (v: int) {
    if s == "" then 0 else 10 * DecimalValue(s[..|s| - 1]) + DigitValue(s[|s| - 1])
  }

  /** The decimal numeral of a natural number, without leading zeros. */
  function Decimal(n: nat): (s: string)
    ensures s != "" && IsDigits(s)
  {
    if n < 10 then [n as char + '0'] else Decimal(n / 10) + [(n % 10) as char + '0']
  }

  lemma {:induction false} DecimalRoundTrip(n: nat)
    ensures DecimalValue(Decimal(n)) == n
  {
    var s := Decimal(n);
    if n < 10 {
      assert s[..|s| - 1] == "";
    } else {
      DecimalRoundTrip(n / 10);
      assert s[..|s| - 1] == Decimal(n / 10);
    }
  }

  lemma {:induction false} DecimalValueIsNat(s: string)
    requires IsDigits(s)
    ensures DecimalValue(s) >= 0
  {
    if s != "" {
      DecimalValueIsNat(s[..|s| - 1]);
    }
  }

  /** The suffix left after the leading white space. */
  function SkipSpaces(s: string): (t: string)
    ensures t == "" || !IsSpace(t[0])
  {
    if s != "" && IsSpace(s[0]) then SkipSpaces(s[1..]) else s
  }

  /** The longest prefix that consists of digits. */
  function LeadingDigits(s: string): (t: string)
    ensures IsDigits(t) && t <= s
    ensures |t| < |s| ==> !IsDigit(s[|t|])
  {
    if s != "" && IsDigit(s[0]) then [s[0]] + LeadingDigits(s[1..]) else ""
  }

  const INT64_MAX: int := 0x7FFF_FFFF_FFFF_FFFF

  /** `strtol` clamps to the range of a 64-bit `long`. */
  function Clamp64(n: int): int {
    if n > INT64_MAX then INT64_MAX else if n < -INT64_MAX - 1 then -INT64_MAX - 1 else n
  }

  /** Conversion of a `long` to a 32-bit `int`: the low 32 bits, read as two's complement. */
  function Wrap32(n: int): int {
    (n + 0x8000_0000) % 0x1_0000_0000 - 0x8000_0000
  }

  predicate Signed(s: string) {
    s != "" && (s[0] == '+' || s[0] == '-')
  }

  /** The part of a string that `atoi` looks for digits in: after white space and a sign. */
  function Unsigned(s: string): string {
    var t := SkipSpaces(s);
    if Signed(t) then t[1..] else t
  }

  predicate Negative(s: string) {
    var t := SkipSpaces(s);
    t != "" && t[0] == '-'
  }

  function IntOf(negative: bool, magnitude: int): int {
    Wrap32(Clamp64(if negative then -magnitude else magnitude))
  }

  /** `atoi` of the GNU C library on a platform with 64-bit `long`. */
  function Atoi(s: string): int {
    IntOf(Negative(s), DecimalValue(LeadingDigits(Unsigned(s))))
  }

  lemma IntOfHuge(negative: bool, magnitude: int)
    requires magnitude > INT64_MAX + 1
    ensures IntOf(negative, magnitude) <= 0
  {
  }

  /** Whether text appended to `s` can still be part of the numeral that `atoi` reads. */
  predicate OpenNumeral(s: string) {
    IsDigits(Unsigned(s))
  }

  lemma {:induction false} SkipSpacesAppend(s: string, t: string)
    requires SkipSpaces(s) != ""
    ensures SkipSpaces(s + t) == SkipSpaces(s) + t
  {
    if IsSpace(s[0]) {
      assert (s + t)[1..] == s[1..] + t;
      SkipSpacesAppend(s[1..], t);
    }
  }

  lemma UnsignedAppend(s: string, t: string)
    requires SkipSpaces(s) != ""
    ensures Unsigned(s + t) == Unsigned(s) + t
    ensures Negative(s + t) == Negative(s)
  {
    SkipSpacesAppend(s, t);
    var w := SkipSpaces(s);
    assert (w + t)[0] == w[0];
    assert (w + t)[1..] == w[1..] + t;
  }

  lemma {:induction false} LeadingDigitsOf(s: string, t: string)
    requires IsDigits(s)
    requires t == "" || !IsDigit(t[0])
    ensures LeadingDigits(s + t) == s
  {
    if s == "" {
      assert s + t == t;
    } else {
      assert (s + t)[1..] == s[1..] + t;
      LeadingDigitsOf(s[1..], t);
    }
  }

  lemma LeadingDigitsClosed(u: string, t: string)
    requires !IsDigits(u)
    ensures LeadingDigits(u + t) == LeadingDigits(u) && !IsDigits(u + t)
  {
    var d := LeadingDigits(u);
    var i :| 0 <= i < |u| && !IsDigit(u[i]);
    assert d == u[..|d|];
    assert i >= |d|;
    assert u + t == d + (u[|d|..] + t);
    LeadingDigitsOf(d, u[|d|..] + t);
    assert !IsDigit((u + t)[|d|]);
  }

  /** Once a numeral is terminated, no appended text changes the value. */
  lemma AtoiClosed(s: string, t: string)
    requires !OpenNumeral(s)
    ensures Atoi(s + t) == Atoi(s) && !OpenNumeral(s + t)
  {
    UnsignedAppend(s, t);
    LeadingDigitsClosed(Unsigned(s), t);
  }

  function Pow10(n: nat): nat {
    if n == 0 then 1 else 10 * Pow10(n - 1)
  }

  function Nines(n: nat): (s: string)
    ensures |s| == n && forall i | 0 <= i < n :: s[i] == '9'
  {
    if n == 0 then "" else Nines(n - 1) + "9"
  }

  lemma {:induction false} NinesAreLarge(s: string, n: nat)
    requires IsDigits(s)
    ensures DecimalValue(s + Nines(n)) >= Pow10(n) - 1
  {
    if n == 0 {
      assert s + Nines(0) == s;
      DecimalValueIsNat(s);
    } else {
      var t := s + Nines(n);
      assert t[..|t| - 1] == s + Nines(n - 1);
      NinesAreLarge(s, n - 1);
    }
  }

  lemma Pow10Twenty()
    ensures Pow10(20) == 100_000_000_000_000_000_000
  {
    assert Pow10(5) == 100_000;
    assert Pow10(10) == 10_000_000_000;
    assert Pow10(15) == 1_000_000_000_000_000;
  }

  /** An unterminated numeral can be pushed out of the range of `long`, where `atoi`
      gives -1 or 0. */
  lemma AtoiSaturates(s: string, n: nat)
    requires OpenNumeral(s) && SkipSpaces(s) != ""
    requires Pow10(n) > INT64_MAX + 2
    ensures Atoi(s + Nines(n)) <= 0
  {
    var t := Nines(n);
    UnsignedAppend(s, t);
    var u := Unsigned(s) + t;
    assert u + "" == u;
    assert IsDigits(u);
    LeadingDigitsOf(u, "");
    NinesAreLarge(Unsigned(s), n);
    IntOfHuge(Negative(s), DecimalValue(u));
  }
}
