/** The two evaluators agree, and conversions between bases are undone by converting back. */
module BaseTheorems {
  import opened Text
  import opened Bases

  const LETTERS := "ABCDEFGHIJKLMN"
  const MORE_LETTERS := "PQRSTUVWXYZ"

  lemma SymbolParts()
    ensures SYMBOLS == "0123456789" + LETTERS + "o" + MORE_LETTERS
  {
  }

  lemma SymbolRuns()
    ensures "0123456789" == Consecutive('0', 10) && LETTERS == Consecutive('A', 14)
    ensures MORE_LETTERS == Consecutive('P', 11)
  {
  }

  lemma SymbolAt(i: nat)
    requires i < 36
    ensures |SYMBOLS| == 36 && DigitOf(SYMBOLS[i]) == i
  {
    SymbolParts();
    SymbolRuns();
    hide Consecutive;
  }

  lemma DigitIsSmall(c: char)
    ensures DigitOf(c) < 36
  {
  }

  /** The two digit tables agree exactly on the characters of `symbols`. So `BaseToDec` does not
      know the capital O, nor any small letter but o. */
  lemma IndexIsDigit(c: char)
    ensures SymbolIndex(c) == DigitOf(c) <==> c in SYMBOLS
    ensures c !in SYMBOLS ==> SymbolIndex(c) == 36
  {
    SymbolAt(0);
    DigitIsSmall(c);
    hide DigitOf;
    var i := SymbolIndex(c);
    if i < 36 {
      SymbolAt(i);
    }
  }

  predicate Known(s: string) {
    forall i | 0 <= i < |s| :: s[i] in SYMBOLS
  }

  lemma KnownDigits(s: string)
    requires Known(s)
    ensures Indices(s) == Digits(s)
    ensures Alphanumeric(s) && forall i | 0 <= i < |s| :: Digits(s)[i] >= 0
  {
    hide SymbolIndex, DigitOf;
    forall i | 0 <= i < |s|
      ensures Indices(s)[i] == Digits(s)[i] && DigitOf(s[i]) >= 0
    {
      IndexIsDigit(s[i]);
    }
  }

  lemma DigitCharOf(v: nat)
    requires v < 36
    ensures DigitOf(DigitChar(v)) == v
    ensures v < 10 ==> IsDigit(DigitChar(v)) && DigitValue(DigitChar(v)) == v
    ensures v >= 10 ==> DigitChar(v) as int == 97 + v - 10
  {
  }

  lemma SmallMod(n: nat, b: nat)
    requires b >= 2 && n / b == 0
    ensures n % b == n && n < b
  {
  }

  lemma NotZeroDigit(v: nat)
    requires 0 < v < 10
    ensures DigitChar(v) != '0'
  {
  }

  lemma {:induction false} NumeralIsDecimal(n: nat, b: nat)
    requires 2 <= b <= 10
    ensures IsDigits(Numeral(n, b))
    ensures n > 0 ==> Numeral(n, b) != "" && Numeral(n, b)[0] != '0'
    decreases n
  {
    if n > 0 {
      Less(n, b);
      NumeralIsDecimal(n / b, b);
      DigitCharOf(n % b);
      hide DigitChar;
      if n / b == 0 {
        SmallMod(n, b);
        assert Numeral(n, b) == [DigitChar(n)];
        NotZeroDigit(n);
      }
    }
  }

  lemma {:induction false} DecimalNumeral(n: nat)
    ensures DecimalValue(Numeral(n, 10)) == n
    decreases n
  {
    if n > 0 {
      DecimalNumeral(n / 10);
      DigitCharOf(n % 10);
      hide DigitChar;
      var s := Numeral(n, 10);
      assert s[..|s| - 1] == Numeral(n / 10, 10);
    }
  }

  /** A numeral is read up to its first letter: its leading digits count, unless there are none or
      their value is no `int`. So the letters of bases above 10 are lost. */
  lemma ReadDigits(s: string, letters: string)
    requires IsDigits(s) && (letters != "" ==> 'a' <= letters[0] <= 'z')
    ensures String2Int(s + letters) == if s == "" || DecimalValue(s) > 2147483647 then 0 else DecimalValue(s)
  {
    DecimalValueIsNat(s);
    LeadingDigitsOf(s, letters);
    var t := s + letters;
    assert s != "" ==> IsDigit(s[0]) && t[0] == s[0];
    assert s == "" ==> t == letters;
    assert SkipSpaces(t) == t && Unsigned(t) == t && !Negative(t);
  }

  lemma Scale(x: int, y: int, b: nat)
    requires x <= y && b > 0
    ensures b * x <= b * y && (x < y ==> b * x < b * y)
  {
  }

  /** Digit by digit no larger means no larger in value, and equal only if the digits are. */
  lemma {:induction false} ValueIsMonotone(us: seq<int>, vs: seq<int>, b: nat)
    requires |us| == |vs| && b > 0 && forall i | 0 <= i < |us| :: us[i] <= vs[i]
    ensures Value(us, b) <= Value(vs, b)
    ensures us != vs ==> Value(us, b) < Value(vs, b)
    decreases |us|
  {
    if us != [] {
      var n := |us| - 1;
      ValueIsMonotone(us[..n], vs[..n], b);
      assert us == us[..n] + [us[n]] && vs == vs[..n] + [vs[n]];
      Scale(Value(us[..n], b), Value(vs[..n], b), b);
    }
  }

  /** With a character that is not in `symbols`, `BaseToDec` gives more than 0 and more than the
      positional value. */
  lemma UnknownIsLarger(s: string, base: nat)
    requires base > 0 && !Known(s)
    ensures Value(Indices(s), base) > 0
    ensures Value(Digits(s), base) < Value(Indices(s), base)
  {
    hide SymbolIndex, DigitOf, Value;
    forall i | 0 <= i < |s|
      ensures Digits(s)[i] <= Indices(s)[i] && (s[i] !in SYMBOLS ==> Digits(s)[i] < Indices(s)[i] == 36)
    {
      IndexIsDigit(s[i]);
      DigitIsSmall(s[i]);
    }
    ValueIsMonotone(Digits(s), Indices(s), base);
    var zeros := seq(|s|, i requires 0 <= i < |s| => 0);
    ValueIsMonotone(zeros, Indices(s), base);
    ValueIsNat(zeros, base);
  }

  /** A value in the range of `int` converts to base 10 unchanged. */
  lemma ConvertedToDecimal(s: string, base: nat)
    requires Alphanumeric(s) && Value(Digits(s), base) <= INT_MAX
    ensures Converted(s, base, 10) == Value(Digits(s), base)
  {
    ValueIsNat(Digits(s), base);
    hide Digits, Value, Alphanumeric, Numeral, String2Int;
    var v := Value(Digits(s), base);
    NumeralIsDecimal(v, 10);
    DecimalNumeral(v);
    ReadDigits(Numeral(v, 10), "");
    assert Numeral(v, 10) + "" == Numeral(v, 10);
  }

  /** The two evaluators agree exactly on the strings over `symbols`, and there both give the
      positional value. */
  lemma EvaluatorsAgree(s: string, base: nat)
    requires 2 <= base <= MAX_BASE && Value(Indices(s), base) <= INT_MAX
    ensures Converted(s, base, 10) == Value(Indices(s), base) <==> Known(s)
    ensures Known(s) ==> Converted(s, base, 10) == Value(Digits(s), base)
  {
    if Known(s) {
      KnownDigits(s);
      ConvertedToDecimal(s, base);
    } else {
      UnknownIsLarger(s, base);
      if Alphanumeric(s) {
        ConvertedToDecimal(s, base);
      }
    }
  }

  lemma OneDigit(d: int, b: nat)
    ensures Value([d], b) == d
  {
    assert [d][..0] == [];
    assert b * 0 == 0;
  }

  /** On a letter that is not a symbol they differ: one takes it for 36, the other knows it. */
  lemma EvaluatorsDiffer(c: char, base: nat)
    requires DigitOf(c) >= 0 && c !in SYMBOLS
    ensures Value(Indices([c]), base) == 36 && Converted([c], base, 10) == DigitOf(c) < 36
  {
    IndexIsDigit(c);
    DigitIsSmall(c);
    var d := DigitOf(c);
    assert Indices([c]) == [36] && Digits([c]) == [d];
    OneDigit(36, base);
    OneDigit(d, base);
    assert Alphanumeric([c]);
    ConvertedToDecimal([c], base);
  }

  /** Such a letter is the capital O, which `symbols` spells as a small one. */
  lemma CapitalOIsNoSymbol()
    ensures 'O' !in SYMBOLS && DigitOf('O') == 24
  {
  }

  lemma DigitsPush(s: string)
    requires s != ""
    ensures Digits(s) == Digits(s[..|s| - 1]) + [DigitOf(s[|s| - 1])]
  {
    hide DigitOf;
  }

  lemma ValueOfPush(ds: seq<int>, d: int, b: nat)
    ensures Value(ds + [d], b) == b * Value(ds, b) + d
  {
    assert (ds + [d])[..|ds|] == ds;
  }

  lemma DivMod(v: int, q: int, d: int, b: int)
    requires b >= 2 && v == b * q + d && 0 <= d < b
    ensures v / b == q && v % b == d
  {
    var r, m := v / b, v % b;
    assert v == b * r + m;
    assert b * (q - r) == m - d;
    NoMultiple(b, q - r);
  }

  lemma RecombineDivMod(n: nat, b: nat)
    requires b >= 2
    ensures b * (n / b) + n % b == n && n % b < b
  {
  }

  /** A numeral has the value that it was made from. */
  lemma {:induction false} ValueOfNumeral(n: nat, b: nat)
    requires 2 <= b <= 36
    ensures Alphanumeric(Numeral(n, b)) && Value(Digits(Numeral(n, b)), b) == n
    decreases n
  {
    if n > 0 {
      Less(n, b);
      ValueOfNumeral(n / b, b);
      RecombineDivMod(n, b);
      DigitCharOf(n % b);
      hide DigitChar, DigitOf, Value;
      var s, t := Numeral(n, b), Numeral(n / b, b);
      assert s == t + [DigitChar(n % b)];
      assert s[..|s| - 1] == t;
      DigitsPush(s);
      ValueOfPush(Digits(t), n % b, b);
      assert forall i | 0 <= i < |t| :: s[i] == t[i];
    }
  }

  predicate CanonicalDigits(s: string, b: nat) {
    forall i | 0 <= i < |s| :: 0 <= DigitOf(s[i]) < b && s[i] == DigitChar(DigitOf(s[i]))
  }

  /** The value of the last digit and of the rest, from the value of the whole. */
  lemma LastDigit(s: string, b: nat)
    requires 2 <= b <= 36 && s != "" && CanonicalDigits(s, b)
    ensures var t, d, v := s[..|s| - 1], DigitOf(s[|s| - 1]), Value(Digits(s), b);
            && 0 <= d < b && v >= 0 && Value(Digits(t), b) >= 0
            && v / b == Value(Digits(t), b) && v % b == d
            && s == t + [DigitChar(d)] && CanonicalDigits(t, b)
  {
    hide DigitChar, DigitOf, Value;
    var t, d := s[..|s| - 1], DigitOf(s[|s| - 1]);
    DigitsPush(s);
    ValueOfPush(Digits(t), d, b);
    ValueIsNat(Digits(t), b);
    ValueIsNat(Digits(s), b);
    DivMod(Value(Digits(s), b), Value(Digits(t), b), d, b);
  }

  lemma ZeroDivMod(b: nat)
    requires b >= 2
    ensures 0 / b == 0 && 0 % b == 0
  {
  }

  /** The numeral of a value is the only one without a leading zero. */
  lemma {:induction false} NumeralIsUnique(s: string, b: nat)
    requires 2 <= b <= 36 && CanonicalDigits(s, b) && (s != "" ==> DigitOf(s[0]) != 0)
    ensures Value(Digits(s), b) >= 0 && Numeral(Value(Digits(s), b), b) == s
    ensures s != "" ==> Value(Digits(s), b) > 0
    decreases |s|
  {
    if s == "" {
      assert Digits(s) == [];
    } else {
      LastDigit(s, b);
      hide DigitChar, DigitOf, Value, Digits;
      var t, v := s[..|s| - 1], Value(Digits(s), b);
      if t != "" {
        assert t[0] == s[0];
      }
      NumeralIsUnique(t, b);
      if t == "" {
        assert s[0] == s[|s| - 1];
      }
      if v == 0 {
        ZeroDivMod(b);
      }
    }
  }

  lemma DecimalValueLast(t: string, c: char)
    ensures DecimalValue(t + [c]) == 10 * DecimalValue(t) + DigitValue(c)
  {
    assert (t + [c])[..|t|] == t;
  }

  /** Converting a numeral to its value and back keeps its reading as a decimal number: at most
      leading zeros are lost. */
  lemma {:induction false} NumeralKeepsDecimal(s: string, b: nat)
    requires 2 <= b <= 10 && CanonicalDigits(s, b)
    ensures Value(Digits(s), b) >= 0
    ensures DecimalValue(Numeral(Value(Digits(s), b), b)) == DecimalValue(s)
    decreases |s|
  {
    if s == "" {
      assert Digits(s) == [];
    } else {
      LastDigit(s, b);
      var t, d, v := s[..|s| - 1], DigitOf(s[|s| - 1]), Value(Digits(s), b);
      NumeralKeepsDecimal(t, b);
      DigitCharOf(d);
      hide DigitChar, DigitOf, Value, Digits;
      ZeroDivMod(b);
      DecimalValueLast(t, DigitChar(d));
      if v == 0 {
        assert DecimalValue(Numeral(0, b)) == 0;
      } else {
        DecimalValueLast(Numeral(v / b, b), DigitChar(d));
      }
    }
  }

  lemma DecimalPush(x: nat, c: char)
    requires x > 0 && IsDigit(c)
    ensures 10 * x + DigitValue(c) >= 0 && Decimal(10 * x + DigitValue(c)) == Decimal(x) + [c]
  {
    var n := 10 * x + DigitValue(c);
    assert n / 10 == x && n % 10 == DigitValue(c);
  }

  lemma DecimalOne(c: char)
    requires IsDigit(c)
    ensures DigitValue(c) >= 0 && Decimal(DigitValue(c)) == [c] && (c != '0' ==> DigitValue(c) > 0)
  {
  }

  /** The decimal numeral of a number written without leading zeros is that text. */
  lemma {:induction false} DecimalOfDigits(s: string)
    requires s != "" && IsDigits(s) && s[0] != '0'
    ensures DecimalValue(s) > 0 && Decimal(DecimalValue(s)) == s
    decreases |s|
  {
    var n := |s| - 1;
    var t, c := s[..n], s[n];
    assert s == t + [c];
    DecimalValueLast(t, c);
    DecimalOne(c);
    if n == 0 {
      assert t == "" && DecimalValue(t) == 0;
      hide DecimalValue, Decimal, DigitValue;
    } else {
      DecimalOfDigits(t);
      DecimalPush(DecimalValue(t), c);
      hide DecimalValue, Decimal, DigitValue;
    }
  }

  lemma DigitsOfZero(b: nat)
    ensures Alphanumeric("0") && Value(Digits("0"), b) == 0 && Decimal(0) == "0"
  {
    assert Digits("0") == [0];
    OneDigit(0, b);
  }

  lemma NumeralOfZero(b: nat)
    requires b >= 2
    ensures Numeral(0, b) == "" && DecimalValue("") == 0
  {
  }

  /** The value of a numeral of base `a` goes to base `b` and its digits, read as a decimal number,
      come back: the result is the original numeral read as a decimal number. The conditions say
      that both results fit an `int`. */
  lemma ConversionRoundTrip(s: string, a: nat, b: nat)
    requires 2 <= a <= 10 && 2 <= b <= 10 && CanonicalDigits(s, a) && DecimalValue(s) <= INT_MAX
    requires Value(Digits(s), a) >= 0 ==> DecimalValue(Numeral(Value(Digits(s), a), b)) <= INT_MAX
    ensures Converted(s, a, b) >= 0
    ensures Converted(Decimal(Converted(s, a, b)), b, a) == DecimalValue(s)
  {
    NumeralKeepsDecimal(s, a);
    assert Alphanumeric(s);
    var v := Value(Digits(s), a);
    var t := Numeral(v, b);
    NumeralIsDecimal(v, b);
    NumeralIsDecimal(v, a);
    DecimalValueIsNat(t);
    ValueOfNumeral(v, b);
    hide Value, Digits, Numeral, CanonicalDigits, DigitOf, Alphanumeric, String2Int, Decimal, DecimalValue;
    ReadDigits(t, "");
    ReadDigits(Numeral(v, a), "");
    assert t + "" == t && Numeral(v, a) + "" == Numeral(v, a);
    assert Converted(s, a, b) == DecimalValue(t);
    if v == 0 {
      NumeralOfZero(b);
      DigitsOfZero(b);
    } else {
      DecimalOfDigits(t);
    }
  }
}
