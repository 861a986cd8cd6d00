/** The character classes and numerals of the program in terms of literal characters and codes. */
module Characters {
  import opened Text
  import opened Grammar

  /** The codes of the token characters of section 2.2 of RFC 2616. */
  predicate TokenCode(n: int) {
    || n == 33 || 35 <= n <= 39 || n == 42 || n == 43 || n == 45 || n == 46 || 48 <= n <= 57
    || 65 <= n <= 90 || 94 <= n <= 122 || n == 124 || n == 126
  }

  /** Methods and header names consist of token characters. In a uri and in a value there is no code
      below 32 and not 127, but codes from 128 on may occur. */
  lemma CharacterClasses(c: char)
    ensures IsToken([c]) <==> TokenCode(c as int)
    ensures IsText([c]) <==> c as int >= 32 && c as int != 127
    ensures IsUri([c]) <==> c as int > 32 && c as int != 127
    ensures IsSpace(c) <==> c as int == 32 || 9 <= c as int <= 13
    ensures IsDigit(c) <==> c in "0123456789"
  {
    assert [c][0] == c;
  }

  predicate Spaces(s: string) {
    forall i | 0 <= i < |s| :: s[i] as int == 32 || 9 <= s[i] as int <= 13
  }

  lemma {:induction false} SpacesAreSkipped(spaces: string, rest: string)
    requires Spaces(spaces) && (rest == "" || !IsSpace(rest[0]))
    ensures SkipSpaces(spaces + rest) == rest
    decreases |spaces|
  {
    if spaces == "" {
      assert spaces + rest == rest;
    } else {
      assert (spaces + rest)[1..] == spaces[1..] + rest;
      SpacesAreSkipped(spaces[1..], rest);
    }
  }

  /** What `atoi` computes from a number: the number if it fits, -1 or 0 beyond the range of a 64-bit
      `long`, the low 32 bits in between. */
  predicate Truncated(result: int, v: int) {
    && -2147483648 <= result <= 2147483647
    && (-2147483648 <= v <= 2147483647 ==> result == v)
    && (v >= 9223372036854775808 ==> result == -1)
    && (v < -9223372036854775808 ==> result == 0)
    && (-9223372036854775808 <= v < 9223372036854775808 ==> (result - v) % 4294967296 == 0)
  }

  lemma IntOfNumber(negative: bool, n: int)
    ensures Truncated(IntOf(negative, n), if negative then -n else n)
  {
    var v := if negative then -n else n;
    var c := Clamp64(v);
    var q := (c + 0x8000_0000) / 0x1_0000_0000;
    assert Wrap32(c) == c - 0x1_0000_0000 * q;
    assert (Wrap32(c) - c) % 4294967296 == 0 by {
      assert Wrap32(c) - c == 4294967296 * (0 - q);
    }
  }

  predicate Sign(s: string) {
    s == "" || s == "+" || s == "-"
  }

  lemma UnsignedReads(spaces: string, sign: string, rest: string)
    requires Spaces(spaces) && Sign(sign)
    requires sign == "" && rest != "" ==> !IsSpace(rest[0]) && rest[0] != '+' && rest[0] != '-'
    ensures Unsigned(spaces + sign + rest) == rest && (Negative(spaces + sign + rest) <==> sign == "-")
  {
    var s, t := spaces + sign + rest, sign + rest;
    assert s == spaces + t;
    if sign == "" {
      assert t == rest;
    } else {
      assert t[0] == sign[0] && t[1..] == rest;
    }
    SpacesAreSkipped(spaces, t);
  }

  lemma StartsWithDigit(digits: string, rest: string)
    requires digits != "" && IsDigits(digits)
    ensures var s := digits + rest; s != "" && !IsSpace(s[0]) && s[0] != '+' && s[0] != '-'
  {
    assert IsDigit(digits[0]);
  }

  lemma AtoiIs(s: string, unsigned: string, digits: string, negative: bool)
    requires Unsigned(s) == unsigned && LeadingDigits(unsigned) == digits && Negative(s) == negative
    ensures Atoi(s) == IntOf(negative, DecimalValue(digits))
  {
  }

  /** `atoi` skips white space, takes a sign, and reads the digits up to the first other character. */
  lemma AtoiReads(spaces: string, sign: string, digits: string, rest: string)
    requires Spaces(spaces) && Sign(sign)
    requires digits != "" && IsDigits(digits) && (rest == "" || !IsDigit(rest[0]))
    ensures var n := DecimalValue(digits);
            Truncated(Atoi(spaces + sign + digits + rest), if sign == "-" then -n else n)
  {
    hide *;
    IntOfNumber(sign == "-", DecimalValue(digits));
    LeadingDigitsOf(digits, rest);
    StartsWithDigit(digits, rest);
    UnsignedReads(spaces, sign, digits + rest);
    assert spaces + sign + digits + rest == spaces + sign + (digits + rest);
    AtoiIs(spaces + sign + (digits + rest), digits + rest, digits, sign == "-");
  }

  /** Without a digit there, it gives 0. */
  lemma AtoiReadsNothing(spaces: string, sign: string, rest: string)
    requires Spaces(spaces) && Sign(sign) && (rest == "" || !IsDigit(rest[0]))
    requires sign == "" && rest != "" ==> !IsSpace(rest[0]) && rest[0] != '+' && rest[0] != '-'
    ensures Atoi(spaces + sign + rest) == 0
  {
    UnsignedReads(spaces, sign, rest);
    assert LeadingDigits(rest) == "";
  }
}
