/** Numerals in different bases (src/util.cpp): `BaseToDec` and `ConvertBase`.

    Both are modelled where the program's `int` arithmetic does not overflow and its `pow` is
    exact; the methods require that. */
module Bases {
  import opened Text

  /** Up to here a `double` holds every integer. */
  const EXACT := 0x20_0000_0000_0000
  /** The largest power of two that a `double` holds. */
  const DOUBLE_EXPONENT: nat := 1023

  /** `symbols`: the letter at 24 is a small `o`. */
  const SYMBOLS := "0123456789ABCDEFGHIJKLMNoPQRSTUVWXYZ"
  const MAX_BASE := 36

  /** `GetIndex`: the length of the string for a character that is not in it. */
  function GetIndex(s: string, c: char): (i: nat)
    ensures i <= |s| && (i < |s| ==> s[i] == c)
    ensures i == |s| <==> c !in s
  {
    if s == "" || s[0] == c then 0 else 1 + GetIndex(s[1..], c)
  }

  function SymbolIndex(c: char): (i: nat) {
    GetIndex(SYMBOLS, c)
  }

  /** The value of a digit or a letter in `ConvertBase`; -1 for any other character. */
  function DigitOf(c: char): int {
    if IsDigit(c) then c as int - '0' as int
    else if 'a' <= c <= 'z' then c as int - 'a' as int + 10
    else if 'A' <= c <= 'Z' then c as int - 'A' as int + 10
    else -1
  }

  function Indices(s: string): (ds: seq<int>)
    ensures |ds| == |s|
  {
    seq(|s|, i requires 0 <= i < |s| => SymbolIndex(s[i]))
  }

  function Digits(s: string): (ds: seq<int>)
    ensures |ds| == |s|
  {
    seq(|s|, i requires 0 <= i < |s| => DigitOf(s[i]))
  }

  function Power(b: nat, k: nat): nat {
    if k == 0 then 1 else b * Power(b, k - 1)
  }

  /** The positional value, most significant digit first. */
  function Value(ds: seq<int>, b: nat): int {
    if ds == [] then 0 else b * Value(ds[..|ds| - 1], b) + ds[|ds| - 1]
  }

  lemma Distribute(b: int, d: int, p: int, v: int)
    ensures b * (d * p + v) == d * (b * p) + b * v
  {
  }

  lemma {:induction false} ValueFront(ds: seq<int>, b: nat)
    requires ds != []
    ensures Value(ds, b) == ds[0] * Power(b, |ds| - 1) + Value(ds[1..], b)
    decreases |ds|
  {
    var n := |ds| - 1;
    var d := ds[0];
    if n == 0 {
      assert ds[..0] == [] && ds[1..] == [];
    } else {
      var init := ds[..n];
      ValueFront(init, b);
      assert init[1..] == ds[1..][..n - 1];
      var p, v := Power(b, n - 1), Value(init[1..], b);
      assert Value(ds, b) == b * (d * p + v) + ds[n];
      Distribute(b, d, p, v);
    }
  }

  function Times(a: int, b: int): int {
    a * b
  }

  /** The quotient of a non-negative number. */
  function Quotient(n: nat, b: nat): nat
    requires b > 0
  {
    n / b
  }

  /** One digit from the left: `total` stands for `head` digits places above. */
  lemma Shift(total: int, head: int, b: int, d: int, place: int)
    requires total == Times(head, Times(b, place))
    ensures total + d * place == Times(Times(b, head) + d, place)
  {
  }

  lemma MulAtLeast(b: int, k: int)
    requires b > 0 && k >= 1
    ensures b * k >= b
  {
  }

  lemma NoMultiple(b: int, k: int)
    requires b > 0 && -b < b * k < b
    ensures k == 0
  {
    if k >= 1 {
      MulAtLeast(b, k);
    } else if k <= -1 {
      MulAtLeast(b, -k);
    }
  }

  lemma DivExact(b: int, q: int)
    requires b > 0
    ensures (b * q) / b == q
  {
    var r, m := (b * q) / b, (b * q) % b;
    assert b * q == b * r + m;
    assert b * (q - r) == m;
    NoMultiple(b, q - r);
  }

  lemma DivPower(b: nat, k: nat)
    requires b > 0
    ensures Quotient(Power(b, k + 1), b) == Power(b, k)
  {
    DivExact(b, Power(b, k));
  }

  lemma IndexAt(s: string, i: nat)
    requires i < |s|
    ensures Indices(s)[i] == SymbolIndex(s[i])
  {
    hide SymbolIndex;
  }

  /** After `i` digits: the place value is exactly the power for the digits that remain, and the
      total is the value so far at its place. */
  predicate Aligned(ds: seq<int>, base: nat, i: nat, place: nat, total: int) {
    && i <= |ds|
    && (i < |ds| ==> place == Power(base, |ds| - i - 1))
    && total == Times(Value(ds[..i], base), Power(base, |ds| - i))
  }

  lemma NoDigits(b: nat)
    ensures Value([], b) == 0
  {
  }

  lemma AlignedStart(ds: seq<int>, base: nat, place: nat)
    requires ds != [] ==> place == Power(base, |ds| - 1)
    ensures Aligned(ds, base, 0, place, 0)
  {
    assert ds[..0] == [];
    NoDigits(base);
    hide Value, Power;
  }

  lemma PowerStep(b: nat, k: nat)
    ensures Power(b, k + 1) == Times(b, Power(b, k))
  {
  }

  lemma ValuePush(ds: seq<int>, i: nat, b: nat)
    requires i < |ds|
    ensures Value(ds[..i + 1], b) == Times(b, Value(ds[..i], b)) + ds[i]
  {
    assert ds[..i + 1][..i] == ds[..i];
  }

  lemma AlignedNext(ds: seq<int>, base: nat, i: nat, place: nat, total: int)
    requires base > 0 && i < |ds| && Aligned(ds, base, i, place, total)
    ensures Aligned(ds, base, i + 1, Quotient(place, base), total + ds[i] * place)
  {
    hide Value, Power, Times, Quotient;
    var left := |ds| - i - 1;
    PowerStep(base, left);
    Shift(total, Value(ds[..i], base), base, ds[i], place);
    ValuePush(ds, i, base);
    if left > 0 {
      DivPower(base, left - 1);
    }
  }

  lemma AlignedEnd(ds: seq<int>, base: nat, place: nat, total: int)
    requires Aligned(ds, base, |ds|, place, total)
    ensures total == Value(ds, base)
  {
    hide Value;
    assert ds[..|ds|] == ds;
  }

  /** Left to right, with a place value that is divided by the base after each digit. */
  method BaseToDec(number: string, base: int) returns (total: int)
    requires 2 <= base <= 36 && number != "" ==> Power(base, |number| - 1) <= INT_MAX
    requires 2 <= base <= 36 ==> Value(Indices(number), base) <= INT_MAX
    ensures total == if 2 <= base <= 36 then Value(Indices(number), base) else 0
  {
    hide Power, Value, Indices, Quotient, GetIndex, SymbolIndex, Aligned;
    if base < 2 || base > MAX_BASE {
      return 0;
    }
    hide *;
    var n := |number|;
    ghost var ds := Indices(number);
    // for an empty number the program's place value is the integer part of 1/base
    var place: nat := if n == 0 then 0 else Power(base, n - 1);
    total := 0;
    AlignedStart(ds, base, place);
    var i := 0;
    while i < n
      invariant 0 <= i <= n && Aligned(ds, base, i, place, total)
    {
      AlignedNext(ds, base, i, place, total);
      IndexAt(number, i);
      total := total + SymbolIndex(number[i]) * place;
      place := Quotient(place, base);
      i := i + 1;
    }
    AlignedEnd(ds, base, place, total);
  }

  /** `string2int`: stream extraction of an `int`, 0 when there is none or it does not fit. */
  function String2Int(s: string): int {
    var digits := LeadingDigits(Unsigned(s));
    var n := if Negative(s) then -DecimalValue(digits) else DecimalValue(digits);
    if digits == "" || n > INT_MAX || n < -INT_MAX - 1 then 0 else n
  }

  /** The character for a digit value, as stored in a `char`. */
  function DigitChar(v: nat): char {
    ((if v < 10 then v + '0' as int else v - 10 + 'a' as int) % 256) as char
  }

  /** The numeral without leading zeros; nothing for 0. */
  function Numeral(n: nat, b: nat): string
    requires b >= 2
  {
    if n == 0 then "" else Numeral(n / b, b) + [DigitChar(n % b)]
  }

  predicate Alphanumeric(s: string) {
    forall i | 0 <= i < |s| :: DigitOf(s[i]) >= 0
  }

  function Reversed(s: string): string {
    if s == "" then "" else [s[|s| - 1]] + Reversed(s[..|s| - 1])
  }

  lemma {:induction false} ReversedPush(s: string, c: char)
    ensures Reversed(s + [c]) == [c] + Reversed(s)
  {
    assert (s + [c])[..|s|] == s;
  }

  lemma Less(n: nat, b: nat)
    requires n > 0 && b >= 2
    ensures n / b < n
  {
  }

  lemma NumeralStep(n: nat, b: nat, more: string)
    requires b >= 2
    ensures n > 0 ==> Numeral(n, b) + more == Numeral(n / b, b) + ([DigitChar(n % b)] + more)
    ensures n == 0 ==> Numeral(n, b) + more == more
  {
    hide DigitChar;
  }

  lemma ReversedStep(s: string, i: nat, answer: string)
    requires 0 < i <= |s|
    ensures answer + Reversed(s[..i]) == answer + [s[i - 1]] + Reversed(s[..i - 1])
  {
    assert s[..i][..i - 1] == s[..i - 1];
  }

  lemma NothingReversed()
    ensures Reversed("") == ""
  {
  }

  /** The digits of `total`, least significant first, then reversed. */
  method ExtractDigits(number: nat, targetBase: int) returns (answer: string)
    requires targetBase >= 2
    ensures answer == Numeral(number, targetBase)
  {
    hide Numeral, Reversed, DigitChar;
    var total: nat, temp := number, "";
    NothingReversed();
    assert Numeral(number, targetBase) + "" == Numeral(number, targetBase);
    while total != 0
      invariant Numeral(total, targetBase) + Reversed(temp) == Numeral(number, targetBase)
      decreases total
    {
      NumeralStep(total, targetBase, Reversed(temp));
      Less(total, targetBase);
      var value := total % targetBase;
      total := total / targetBase;
      ReversedPush(temp, DigitChar(value));
      temp := temp + [DigitChar(value)];
    }
    NumeralStep(0, targetBase, Reversed(temp));
    answer := "";
    var i := 1;
    assert temp[..|temp|] == temp && "" + Reversed(temp) == Reversed(temp);
    while i <= |temp|
      invariant 1 <= i <= |temp| + 1
      invariant answer + Reversed(temp[..|temp| + 1 - i]) == Reversed(temp)
    {
      ReversedStep(temp, |temp| + 1 - i, answer);
      answer := answer + [temp[|temp| - i]];
      i := i + 1;
    }
    assert temp[..0] == "" && answer + "" == answer;
  }

  /** What `ConvertBase` gives: 0 for any other character, else the numeral of the value in the
      target base, read back as a decimal `int`. */
  function Converted(number: string, currentBase: nat, targetBase: nat): int
    requires targetBase >= 2
  {
    var v := Value(Digits(number), currentBase);
    if Alphanumeric(number) && v >= 0 then String2Int(Numeral(v, targetBase)) else 0
  }

  lemma {:induction false} ValueIsNat(ds: seq<int>, b: nat)
    requires forall i | 0 <= i < |ds| :: ds[i] >= 0
    ensures Value(ds, b) >= 0
    decreases |ds|
  {
    if ds != [] {
      ValueIsNat(ds[..|ds| - 1], b);
    }
  }

  /** `pow` does not overflow and the sum is exact, for all digits that are reached from the right. */
  predicate Computable(number: string, base: nat) {
    forall i | 0 <= i < |number| && Alphanumeric(number[i..]) ::
      && Value(Digits(number[i..]), base) <= EXACT
      && Power(base, |number| - i - 1) <= Power(2, DOUBLE_EXPONENT)
  }

  /** Right to left, by powers of the base. A target base below 2 has no numerals: the program's
      loop would divide by zero or not end. */
  method ConvertBase(number: string, currentBase: int, targetBase: int) returns (result: int)
    requires currentBase >= 0 && targetBase >= 2 && Computable(number, currentBase)
    ensures result == Converted(number, currentBase, targetBase)
  {
    hide Power, Numeral, String2Int, Value;
    NoDigits(currentBase);
    var total := 0;
    ghost var ds := Digits(number);
    var i := |number| - 1;
    assert ds[|number|..] == [];
    while i >= 0
      invariant -1 <= i < |number|
      invariant total == Value(ds[i + 1..], currentBase)
      invariant forall k | i < k < |number| :: ds[k] >= 0
    {
      var value := DigitOf(number[i]);
      if value < 0 {
        return 0;
      }
      assert ds[i..][1..] == ds[i + 1..] && ds[i..][0] == value;
      ValueFront(ds[i..], currentBase);
      total := total + value * Power(currentBase, |number| - i - 1);
      i := i - 1;
    }
    assert ds[0..] == ds;
    assert forall k | 0 <= k < |number| :: ds[k] == DigitOf(number[k]);
    ValueIsNat(ds, currentBase);
    var answer := ExtractDigits(total, targetBase);
    result := String2Int(answer);
  }
}
