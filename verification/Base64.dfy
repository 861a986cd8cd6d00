/** The Base64 encoder and the two decoders (src/wp_base64.cpp), section 4 of RFC 4648. */
module Base64 {
  import opened Text
  import Conversions

  type Byte = bv8

  const UPPER := "ABCDEFGHIJKLMNOPQRSTUVWXYZ"
  const LOWER := "abcdefghijklmnopqrstuvwxyz"
  const DIGITS_AND_SIGNS := "0123456789+/"
  /** `kBase64String`. */
  function Alphabet(): string {
    UPPER + LOWER + DIGITS_AND_SIGNS
  }

  predicate IsAlphabet(c: char) {
    'A' <= c <= 'Z' || 'a' <= c <= 'z' || IsDigit(c) || c == '+' || c == '/'
  }

  predicate IsSextet(v: Byte) {
    v < 64
  }

  predicate Sextets(vs: seq<Byte>) {
    forall i | 0 <= i < |vs| :: IsSextet(vs[i])
  }

  /** The bits that the second symbol of a one-byte group does not use. */
  predicate LowFourZero(v: Byte) {
    v & 0x0f == 0
  }

  predicate LowTwoZero(v: Byte) {
    v & 0x03 == 0
  }

  /** `std::string::find` of a character; -1 stands for `npos`. */
  function IndexOf(s: string, c: char): (i: int)
    ensures -1 <= i < |s|
    ensures i == -1 ==> c !in s
    ensures i >= 0 ==> s[i] == c && c !in s[..i]
  {
    if s == "" then -1
    else if s[0] == c then 0
    else
      var i := IndexOf(s[1..], c);
      if i == -1 then -1 else i + 1
  }

  lemma SextetIsIndex(v: Byte)
    requires IsSextet(v)
    ensures 0 <= v as int < 64 == |Alphabet()| && (v as int) as Byte == v
  {
    Conversions.IntOfSmallByte(v);
  }

  function Symbol(v: Byte): char
    requires IsSextet(v)
  {
    SextetIsIndex(v);
    Alphabet()[v as int]
  }

  lemma AlphabetSize()
    ensures |Alphabet()| == 64
  {
  }

  /** `kBase64String.find(c)` stored in an `unsigned char`: 255 for a character not in the alphabet.
      `Value` is the same as a byte with bit operations. */
  function ValueCode(c: char): (v: int)
    ensures 0 <= v < 256
  {
    var i := IndexOf(Alphabet(), c);
    AlphabetSize();
    if i == -1 then 255 else i
  }

  function Value(c: char): Byte {
    ValueCode(c) as Byte
  }

  /** Entry `c` of `Base64DecTable`, filled range by range. */
  function TableValue(c: char): int {
    if IsDigit(c) then 52 + (c as int - '0' as int)
    else if 'A' <= c <= 'Z' then c as int - 'A' as int
    else if 'a' <= c <= 'z' then 26 + (c as int - 'a' as int)
    else if c == '+' then 62
    else if c == '/' then 63
    else -1
  }

  lemma UpperRun()
    ensures UPPER == Consecutive('A', 26)
  {
  }

  lemma LowerRun()
    ensures LOWER == Consecutive('a', 26)
  {
  }

  lemma DigitRun()
    ensures DIGITS_AND_SIGNS == Consecutive('0', 10) + "+/"
  {
  }

  lemma AlphabetRuns()
    ensures Alphabet() == Consecutive('A', 26) + Consecutive('a', 26) + (Consecutive('0', 10) + "+/")
  {
    UpperRun();
    LowerRun();
    DigitRun();
    hide Consecutive;
  }

  lemma AlphabetAt(i: int)
    requires 0 <= i < 64
    ensures |Alphabet()| == 64
    ensures IsAlphabet(Alphabet()[i]) && TableValue(Alphabet()[i]) == i
  {
    AlphabetRuns();
    hide Consecutive, Alphabet;
  }

  lemma AlphabetOf(c: char)
    requires IsAlphabet(c)
    ensures 0 <= TableValue(c) < 64 && |Alphabet()| == 64 && Alphabet()[TableValue(c)] == c
  {
    AlphabetRuns();
    hide Consecutive, Alphabet;
  }

  lemma NotInTable(c: char)
    ensures TableValue(c) == -1 <==> !IsAlphabet(c)
  {
  }

  /** The search in the alphabet string and the table agree on every character. */
  lemma IndexIsTableValue(c: char)
    ensures IndexOf(Alphabet(), c) == TableValue(c)
    ensures |Alphabet()| == 64
  {
    var i := IndexOf(Alphabet(), c);
    AlphabetAt(0);
    NotInTable(c);
    if IsAlphabet(c) {
      AlphabetOf(c);
    }
    hide IndexOf, Alphabet, IsAlphabet, TableValue;
    if i >= 0 {
      AlphabetAt(i);
    } else {
      var a := Alphabet();
      assert forall k | 0 <= k < |a| :: a[k] != c;
    }
  }

  lemma SmallByte(i: int)
    requires 0 <= i < 64
    ensures IsSextet(i as Byte) && (i as Byte) as int == i
  {
    Conversions.SmallByteOfInt(i);
  }

  lemma ValueOfAlphabet(c: char)
    requires IsAlphabet(c)
    ensures IsSextet(Value(c)) && Value(c) as int == TableValue(c) && Symbol(Value(c)) == c
  {
    hide IndexOf, Alphabet, IsAlphabet, TableValue, IsSextet;
    IndexIsTableValue(c);
    AlphabetOf(c);
    SmallByte(TableValue(c));
  }

  lemma ValueOfSymbol(v: Byte)
    requires IsSextet(v)
    ensures IsAlphabet(Symbol(v)) && Value(Symbol(v)) == v
  {
    hide IndexOf, Alphabet, IsAlphabet, TableValue, IsSextet;
    SextetIsIndex(v);
    AlphabetAt(v as int);
    IndexIsTableValue(Symbol(v));
  }

  /** The sextets of three bytes. */
  function Quad(a: Byte, b: Byte, c: Byte): (q: seq<Byte>)
    ensures |q| == 4 && Sextets(q)
  {
    [(a & 0xfc) >> 2, ((a & 0x03) << 4) + ((b & 0xf0) >> 4), ((b & 0x0f) << 2) + ((c & 0xc0) >> 6), c & 0x3f]
  }

  /** The sextets are the 24 bits of the bytes, from the top. */
  lemma QuadIsBits(a: Byte, b: Byte, c: Byte)
    ensures var q := Quad(a, b, c);
            ((q[0] as bv24) << 18) | ((q[1] as bv24) << 12) | ((q[2] as bv24) << 6) | (q[3] as bv24) ==
            ((a as bv24) << 16) | ((b as bv24) << 8) | (c as bv24)
  {
  }

  /** The bytes of four sextets; bits of `v` above the sixth are shifted out or added to. */
  function Triple(v0: Byte, v1: Byte, v2: Byte, v3: Byte): (t: seq<Byte>)
    ensures |t| == 3
  {
    [(v0 << 2) + ((v1 & 0x30) >> 4), ((v1 & 0x0f) << 4) + ((v2 & 0x3c) >> 2), ((v2 & 0x03) << 6) + v3]
  }

  lemma TripleOfQuad(a: Byte, b: Byte, c: Byte)
    ensures var q := Quad(a, b, c); Triple(q[0], q[1], q[2], q[3]) == [a, b, c]
  {
  }

  lemma QuadOfTriple(v0: Byte, v1: Byte, v2: Byte, v3: Byte)
    requires IsSextet(v0) && IsSextet(v1) && IsSextet(v2) && IsSextet(v3)
    ensures var t := Triple(v0, v1, v2, v3); Quad(t[0], t[1], t[2]) == [v0, v1, v2, v3]
  {
  }

  lemma SixBits(v: Byte)
    requires IsSextet(v)
    ensures v & 0x30 == v <==> v & 0x0f == 0
    ensures v & 0x3c == v <==> v & 0x03 == 0
  {
  }

  lemma ShortBits(v0: Byte, v1: Byte, v2: Byte)
    requires IsSextet(v0) && IsSextet(v1) && IsSextet(v2)
    ensures var a := (v0 << 2) + ((v1 & 0x30) >> 4);
            var b := ((v1 & 0x0f) << 4) + ((v2 & 0x3c) >> 2);
            && (a & 0xfc) >> 2 == v0
            && (a & 0x03) << 4 == v1 & 0x30
            && ((a & 0x03) << 4) + ((b & 0xf0) >> 4) == v1
            && (b & 0x0f) << 2 == v2 & 0x3c
  {
  }

  lemma ZeroBits()
    ensures (0 as Byte) & 0xf0 == 0 && (0 as Byte) & 0xc0 == 0
    ensures (0 as Byte) >> 4 == 0 && (0 as Byte) >> 6 == 0
  {
  }

  /** A last group of one byte comes back from its two sextets when the unused bits are zero. */
  lemma QuadOfOne(v0: Byte, v1: Byte, fill: Byte)
    requires IsSextet(v0) && IsSextet(v1) && LowFourZero(v1)
    ensures Quad(Triple(v0, v1, fill, fill)[0], 0, 0)[..2] == [v0, v1]
  {
    ShortBits(v0, v1, 0);
    ZeroBits();
    SixBits(v1);
  }

  lemma QuadOfTwo(v0: Byte, v1: Byte, v2: Byte, fill: Byte)
    requires IsSextet(v0) && IsSextet(v1) && IsSextet(v2) && LowTwoZero(v2)
    ensures var t := Triple(v0, v1, v2, fill); Quad(t[0], t[1], 0)[..3] == [v0, v1, v2]
  {
    ShortBits(v0, v1, v2);
    ZeroBits();
    SixBits(v2);
  }

  function Symbols(vs: seq<Byte>): (s: string)
    requires Sextets(vs)
    ensures |s| == |vs|
  {
    seq(|vs|, i requires 0 <= i < |vs| => Symbol(vs[i]))
  }

  /** The encoding: four symbols for three bytes; a shorter last group is padded with `=`. */
  function Encoded(b: seq<Byte>): string {
    if |b| == 0 then ""
    else if |b| == 1 then Symbols(Quad(b[0], 0, 0)[..2]) + "=="
    else if |b| == 2 then Symbols(Quad(b[0], b[1], 0)[..3]) + "="
    else Symbols(Quad(b[0], b[1], b[2])) + Encoded(b[3..])
  }

  /** The longest prefix of alphabet characters. */
  function AlphabetPrefix(s: string): (t: string)
    ensures t <= s && forall i | 0 <= i < |t| :: IsAlphabet(t[i])
    ensures |t| < |s| ==> !IsAlphabet(s[|t|])
  {
    if s != "" && IsAlphabet(s[0]) then [s[0]] + AlphabetPrefix(s[1..]) else ""
  }

  function Values(s: string): (vs: seq<Byte>)
    ensures |vs| == |s|
  {
    seq(|s|, i requires 0 <= i < |s| => Value(s[i]))
  }

  const NO_VALUE: Byte := 255

  /** Entry `i` of the four-slot array whose unused slots hold `fill`. */
  function Slot(vs: seq<Byte>, i: nat, fill: Byte): Byte {
    if i < |vs| then vs[i] else fill
  }

  /** The bytes of a last group: one less than its sextets. */
  function Tail(vs: seq<Byte>, fill: Byte): seq<Byte>
    requires |vs| < 4
  {
    if |vs| == 0 then []
    else Triple(Slot(vs, 0, fill), Slot(vs, 1, fill), Slot(vs, 2, fill), fill)[..|vs| - 1]
  }

  function Bytes(vs: seq<Byte>): seq<Byte> {
    if |vs| < 4 then Tail(vs, NO_VALUE) else Triple(vs[0], vs[1], vs[2], vs[3]) + Bytes(vs[4..])
  }

  function Decoded(s: string): seq<Byte> {
    Bytes(Values(AlphabetPrefix(s)))
  }

  lemma TripleFill(v0: Byte, v1: Byte, v2: Byte, f: Byte, g: Byte)
    ensures Triple(v0, v1, f, f)[..1] == Triple(v0, v1, g, g)[..1]
    ensures Triple(v0, v1, v2, f)[..2] == Triple(v0, v1, v2, g)[..2]
  {
    assert Triple(v0, v1, f, f)[0] == Triple(v0, v1, g, g)[0];
  }

  /** The value in the unused slots never reaches a byte that is emitted. */
  lemma FillDoesNotMatter(vs: seq<Byte>, f: Byte, g: Byte)
    requires |vs| < 4
    ensures Tail(vs, f) == Tail(vs, g)
  {
    hide Triple;
    TripleFill(Slot(vs, 0, f), Slot(vs, 1, f), Slot(vs, 2, f), f, g);
    if |vs| == 1 {
      assert Tail(vs, f) == [] == Tail(vs, g);
    }
  }

  lemma {:induction false} PrefixOfAlphabet(a: string, rest: string)
    requires forall i | 0 <= i < |a| :: IsAlphabet(a[i])
    requires rest == "" || !IsAlphabet(rest[0])
    ensures AlphabetPrefix(a + rest) == a
  {
    if a == "" {
      assert a + rest == rest;
    } else {
      assert (a + rest)[1..] == a[1..] + rest;
      PrefixOfAlphabet(a[1..], rest);
    }
  }

  /** Only the longest alphabet prefix is decoded. */
  lemma DecodesPrefixOnly(s: string, t: string)
    requires AlphabetPrefix(s) == AlphabetPrefix(t)
    ensures Decoded(s) == Decoded(t) == Decoded(AlphabetPrefix(s))
  {
    PrefixOfAlphabet(AlphabetPrefix(s), "");
    assert AlphabetPrefix(s) + "" == AlphabetPrefix(s);
  }

  /** The symbols of an encoding without the padding, as sextets. */
  function SextetsOf(b: seq<Byte>): (vs: seq<Byte>)
    ensures Sextets(vs)
  {
    if |b| == 0 then []
    else if |b| == 1 then Quad(b[0], 0, 0)[..2]
    else if |b| == 2 then Quad(b[0], b[1], 0)[..3]
    else Quad(b[0], b[1], b[2]) + SextetsOf(b[3..])
  }

  function Padding(n: nat): string {
    if n % 3 == 1 then "==" else if n % 3 == 2 then "=" else ""
  }

  lemma SymbolsConcat(u: seq<Byte>, v: seq<Byte>)
    requires Sextets(u)
    requires Sextets(v)
    ensures Sextets(u + v)
    ensures Symbols(u + v) == Symbols(u) + Symbols(v)
  {
  }

  lemma {:induction false} EncodedLength(b: seq<Byte>)
    ensures |Encoded(b)| == 4 * ((|b| + 2) / 3)
    decreases |b|
  {
    hide IsSextet, Symbol, Quad;
    if |b| >= 3 {
      EncodedLength(b[3..]);
    }
  }

  lemma PaddingPeriod(n: nat)
    requires n >= 3
    ensures Padding(n) == Padding(n - 3)
  {
  }

  lemma {:induction false} EncodedSymbols(b: seq<Byte>)
    ensures Encoded(b) == Symbols(SextetsOf(b)) + Padding(|b|)
    decreases |b|
  {
    hide IsSextet, Symbol, Quad;
    if |b| >= 3 {
      EncodedSymbols(b[3..]);
      SymbolsConcat(Quad(b[0], b[1], b[2]), SextetsOf(b[3..]));
      hide Symbols, Padding;
      assert Padding(|b|) == Padding(|b[3..]|) by { PaddingPeriod(|b|); }
    } else if |b| == 0 {
      assert Symbols([]) + "" == "";
    }
  }

  lemma ValuesOfSymbols(vs: seq<Byte>)
    requires Sextets(vs)
    ensures Values(Symbols(vs)) == vs
    ensures forall i | 0 <= i < |vs| :: IsAlphabet(Symbols(vs)[i])
  {
    hide IsSextet, LowFourZero, LowTwoZero, Value, Symbol, IsAlphabet;
    forall i | 0 <= i < |vs|
      ensures Values(Symbols(vs))[i] == vs[i] && IsAlphabet(Symbols(vs)[i])
    {
      ValueOfSymbol(vs[i]);
    }
  }

  /** An encoding is the symbols of the sextets followed by the padding; its length is four for
      every begun group of three bytes. */
  lemma EncodedShape(b: seq<Byte>)
    ensures Encoded(b) == Symbols(SextetsOf(b)) + Padding(|b|)
    ensures |Encoded(b)| == 4 * ((|b| + 2) / 3)
    ensures forall i | 0 <= i < |SextetsOf(b)| :: IsAlphabet(Symbols(SextetsOf(b))[i])
  {
    hide Encoded, SextetsOf, Symbols, IsAlphabet;
    EncodedLength(b);
    EncodedSymbols(b);
    ValuesOfSymbols(SextetsOf(b));
  }

  lemma ShortGroups(a: Byte, b: Byte)
    ensures Tail(Quad(a, 0, 0)[..2], NO_VALUE) == [a]
    ensures Tail(Quad(a, b, 0)[..3], NO_VALUE) == [a, b]
  {
  }

  lemma {:induction false} BytesOfSextets(b: seq<Byte>)
    ensures Bytes(SextetsOf(b)) == b
    decreases |b|
  {
    if |b| >= 3 {
      BytesOfSextets(b[3..]);
      TripleOfQuad(b[0], b[1], b[2]);
      hide IsSextet, LowFourZero, LowTwoZero, Quad, Triple;
      var q := Quad(b[0], b[1], b[2]);
      assert SextetsOf(b)[4..] == SextetsOf(b[3..]);
      assert b == [b[0], b[1], b[2]] + b[3..];
    } else if |b| > 0 {
      ShortGroups(b[0], if |b| == 2 then b[1] else 0);
      hide IsSextet, LowFourZero, LowTwoZero, Quad, Triple, Tail;
    }
  }

  /** Decoding an encoding gives the bytes back. */
  lemma DecodeEncode(b: seq<Byte>)
    ensures Decoded(Encoded(b)) == b
  {
    EncodedSymbols(b);
    ValuesOfSymbols(SextetsOf(b));
    hide Encoded, SextetsOf, Symbols, Values, Bytes;
    PrefixOfAlphabet(Symbols(SextetsOf(b)), Padding(|b|));
    BytesOfSextets(b);
  }

  /** Canonical encodings (sections 3.2 and 3.5 of RFC 4648): groups of four, padding only at the
      end, and zeros in the bits that the last symbol does not use. */
  predicate Canonical(s: string) {
    if s == "" then true
    else if |s| < 4 || !IsAlphabet(s[0]) || !IsAlphabet(s[1]) then false
    else if |s| == 4 && s[2] == '=' then s[3] == '=' && LowFourZero(Value(s[1]))
    else if !IsAlphabet(s[2]) then false
    else if |s| == 4 && s[3] == '=' then LowTwoZero(Value(s[2]))
    else IsAlphabet(s[3]) && Canonical(s[4..])
  }

  lemma QuadSymbols(v0: Byte, v1: Byte, v2: Byte, v3: Byte)
    requires IsSextet(v0) && IsSextet(v1) && IsSextet(v2) && IsSextet(v3)
    ensures Symbols([v0, v1, v2, v3]) == [Symbol(v0), Symbol(v1), Symbol(v2), Symbol(v3)]
  {
    hide IsSextet, Symbol;
  }

  lemma PrefixFour(s: string)
    requires |s| >= 4 && forall i | 0 <= i < 4 :: IsAlphabet(s[i])
    ensures |AlphabetPrefix(s)| >= 4 && AlphabetPrefix(s)[4..] == AlphabetPrefix(s[4..])
    ensures AlphabetPrefix(s)[..4] == s[..4]
  {
    var a := s[..4] + AlphabetPrefix(s[4..]);
    var rest := s[|a|..];
    PrefixOfAlphabet(a, rest);
    assert s == a + rest;
  }

  lemma FullGroup(s: string)
    requires |s| >= 4 && IsAlphabet(s[0]) && IsAlphabet(s[1]) && IsAlphabet(s[2]) && IsAlphabet(s[3])
    ensures Decoded(s) == Triple(Value(s[0]), Value(s[1]), Value(s[2]), Value(s[3])) + Decoded(s[4..])
  {
    hide LowFourZero, LowTwoZero, Value, Triple, IsAlphabet, Tail;
    assert forall i | 0 <= i < 4 :: IsAlphabet(s[i]);
    PrefixFour(s);
    var p := AlphabetPrefix(s);
    assert Values(p)[4..] == Values(p[4..]);
  }

  lemma TailSymbols(s: string, k: nat)
    requires 2 <= k <= 3 && |s| > k && s[k] == '='
    requires forall i | 0 <= i < k :: IsAlphabet(s[i])
    ensures AlphabetPrefix(s) == s[..k]
  {
    PrefixOfAlphabet(s[..k], s[k..]);
    assert s == s[..k] + s[k..];
  }

  lemma SymbolPair(v0: Byte, v1: Byte)
    requires IsSextet(v0) && IsSextet(v1)
    ensures Symbols([v0, v1]) == [Symbol(v0), Symbol(v1)]
  {
    hide IsSextet, Symbol;
  }

  lemma SymbolTriple(v0: Byte, v1: Byte, v2: Byte)
    requires IsSextet(v0) && IsSextet(v1) && IsSextet(v2)
    ensures Symbols([v0, v1, v2]) == [Symbol(v0), Symbol(v1), Symbol(v2)]
  {
    hide IsSextet, Symbol;
  }

  lemma EncodedShort(a: Byte, b: Byte)
    ensures Encoded([a]) == Symbols(Quad(a, 0, 0)[..2]) + "=="
    ensures Encoded([a, b]) == Symbols(Quad(a, b, 0)[..3]) + "="
  {
    hide IsSextet, LowFourZero, LowTwoZero, Quad, Symbols;
  }

  lemma DecodedShort(s: string, k: nat)
    requires 2 <= k <= 3 && |s| > k && s[k] == '='
    requires forall i | 0 <= i < k :: IsAlphabet(s[i])
    ensures var t := Triple(Value(s[0]), Value(s[1]), if k == 2 then NO_VALUE else Value(s[2]), NO_VALUE);
            Decoded(s) == if k == 2 then [t[0]] else [t[0], t[1]]
  {
    hide IsSextet, LowFourZero, LowTwoZero, Triple, Value, IsAlphabet, AlphabetPrefix;
    TailSymbols(s, k);
  }

  lemma CanonicalOnePadding(s: string)
    requires |s| == 4 && IsAlphabet(s[0]) && IsAlphabet(s[1]) && s[2] == '=' && s[3] == '='
    requires LowFourZero(Value(s[1]))
    ensures Encoded(Decoded(s)) == s
  {
    hide *;
    ValueOfAlphabet(s[0]);
    ValueOfAlphabet(s[1]);
    var v0, v1 := Value(s[0]), Value(s[1]);
    QuadOfOne(v0, v1, NO_VALUE);
    SymbolPair(v0, v1);
    DecodedShort(s, 2);
    var t := Triple(v0, v1, NO_VALUE, NO_VALUE);
    EncodedShort(t[0], 0);
    assert s == [s[0], s[1]] + "==";
  }

  lemma CanonicalTwoPadding(s: string)
    requires |s| == 4 && IsAlphabet(s[0]) && IsAlphabet(s[1]) && IsAlphabet(s[2]) && s[3] == '='
    requires LowTwoZero(Value(s[2]))
    ensures Encoded(Decoded(s)) == s
  {
    hide *;
    ValueOfAlphabet(s[0]);
    ValueOfAlphabet(s[1]);
    ValueOfAlphabet(s[2]);
    var v0, v1, v2 := Value(s[0]), Value(s[1]), Value(s[2]);
    QuadOfTwo(v0, v1, v2, NO_VALUE);
    SymbolTriple(v0, v1, v2);
    DecodedShort(s, 3);
    var t := Triple(v0, v1, v2, NO_VALUE);
    EncodedShort(t[0], t[1]);
    assert s == [s[0], s[1], s[2]] + "=";
  }

  lemma EncodedGroup(v0: Byte, v1: Byte, v2: Byte, v3: Byte, more: seq<Byte>)
    requires IsSextet(v0) && IsSextet(v1) && IsSextet(v2) && IsSextet(v3)
    ensures Encoded(Triple(v0, v1, v2, v3) + more) == [Symbol(v0), Symbol(v1), Symbol(v2), Symbol(v3)] + Encoded(more)
  {
    QuadOfTriple(v0, v1, v2, v3);
    QuadSymbols(v0, v1, v2, v3);
    hide IsSextet, LowFourZero, LowTwoZero, Triple, Quad, Symbol, Symbols;
    var t := Triple(v0, v1, v2, v3);
    assert (t + more)[3..] == more;
  }

  lemma CanonicalGroup(s: string)
    requires Canonical(s) && s != "" && !(|s| == 4 && (s[2] == '=' || s[3] == '='))
    ensures |s| >= 4 && Canonical(s[4..])
    ensures IsAlphabet(s[0]) && IsAlphabet(s[1]) && IsAlphabet(s[2]) && IsAlphabet(s[3])
  {
    hide Value, IsAlphabet, LowFourZero, LowTwoZero;
  }

  lemma GroupRoundTrip(s: string)
    requires |s| >= 4 && IsAlphabet(s[0]) && IsAlphabet(s[1]) && IsAlphabet(s[2]) && IsAlphabet(s[3])
    requires Encoded(Decoded(s[4..])) == s[4..]
    ensures Encoded(Decoded(s)) == s
  {
    hide *;
    FullGroup(s);
    ValueOfAlphabet(s[0]);
    ValueOfAlphabet(s[1]);
    ValueOfAlphabet(s[2]);
    ValueOfAlphabet(s[3]);
    EncodedGroup(Value(s[0]), Value(s[1]), Value(s[2]), Value(s[3]), Decoded(s[4..]));
    assert s == [s[0], s[1], s[2], s[3]] + s[4..];
  }

  lemma NothingRoundTrip()
    ensures Encoded(Decoded("")) == ""
  {
  }

  lemma CanonicalShort(s: string)
    requires Canonical(s) && |s| == 4
    ensures s[2] == '=' ==> IsAlphabet(s[0]) && IsAlphabet(s[1]) && s[3] == '=' && LowFourZero(Value(s[1]))
    ensures s[2] != '=' && s[3] == '=' ==>
              IsAlphabet(s[0]) && IsAlphabet(s[1]) && IsAlphabet(s[2]) && LowTwoZero(Value(s[2]))
  {
    hide Value, IsAlphabet, LowFourZero, LowTwoZero;
  }

  lemma {:induction false} CanonicalRoundTrip(s: string)
    requires Canonical(s)
    ensures Encoded(Decoded(s)) == s
    decreases |s|
  {
    hide *;
    if s == "" {
      NothingRoundTrip();
    } else if |s| == 4 && s[2] == '=' {
      CanonicalShort(s);
      CanonicalOnePadding(s);
    } else if |s| == 4 && s[3] == '=' {
      CanonicalShort(s);
      CanonicalTwoPadding(s);
    } else {
      CanonicalGroup(s);
      CanonicalRoundTrip(s[4..]);
      GroupRoundTrip(s);
    }
  }

  lemma QuadTails(a: Byte, b: Byte)
    ensures LowFourZero(Quad(a, 0, 0)[1]) && LowTwoZero(Quad(a, b, 0)[2])
  {
  }

  lemma EncodedFirst(b: seq<Byte>)
    requires |b| >= 3
    ensures var s := Encoded(b);
            |s| >= 4 && s[4..] == Encoded(b[3..]) && forall i | 0 <= i < 4 :: IsAlphabet(s[i])
  {
    var q := Quad(b[0], b[1], b[2]);
    ValuesOfSymbols(q);
    hide IsSextet, LowFourZero, LowTwoZero, Quad, Symbol, Value, Symbols, IsAlphabet;
    var s := Encoded(b);
    assert s[..4] == Symbols(q);
    assert forall i | 0 <= i < 4 :: s[i] == Symbols(q)[i];
  }

  lemma EncodedOne(a: Byte)
    ensures Canonical(Symbols(Quad(a, 0, 0)[..2]) + "==")
  {
    var q := Quad(a, 0, 0)[..2];
    QuadTails(a, 0);
    hide IsSextet, LowFourZero, LowTwoZero, Quad, Symbol, Value, IsAlphabet;
    ValuesOfSymbols(q);
    var t := Symbols(q);
    var s := t + "==";
    assert s[0] == t[0] && s[1] == t[1];
    assert Value(s[1]) == Values(t)[1] == q[1];
  }

  lemma NoSymbolIsPadding(c: char)
    ensures IsAlphabet(c) ==> c != '='
  {
  }

  lemma EncodedTwo(a: Byte, b: Byte)
    ensures Canonical(Symbols(Quad(a, b, 0)[..3]) + "=")
  {
    var q := Quad(a, b, 0)[..3];
    QuadTails(a, b);
    hide IsSextet, LowFourZero, LowTwoZero, Quad, Symbol, Value;
    ValuesOfSymbols(q);
    var t := Symbols(q);
    var s := t + "=";
    assert s[0] == t[0] && s[1] == t[1] && s[2] == t[2];
    assert Value(s[2]) == Values(t)[2] == q[2];
    NoSymbolIsPadding(s[2]);
    hide IsAlphabet;
  }

  lemma CanonicalMore(s: string)
    requires |s| >= 4 && Canonical(s[4..]) && forall i | 0 <= i < 4 :: IsAlphabet(s[i])
    ensures Canonical(s)
  {
    hide IsSextet, LowFourZero, LowTwoZero, Value;
  }

  lemma {:induction false} EncodedIsCanonical(b: seq<Byte>)
    ensures Canonical(Encoded(b))
    decreases |b|
  {
    if |b| >= 3 {
      EncodedIsCanonical(b[3..]);
      hide Encoded, Canonical, IsAlphabet;
      EncodedFirst(b);
      CanonicalMore(Encoded(b));
    } else if |b| > 0 {
      EncodedOne(b[0]);
      EncodedTwo(b[0], if |b| == 1 then 0 else b[1]);
      hide Quad, Symbols, Canonical;
    }
  }

  /** Encoding a decoded text gives the text back exactly when the text is canonical. */
  lemma EncodeDecode(s: string)
    ensures Encoded(Decoded(s)) == s <==> Canonical(s)
  {
    hide Encoded, Decoded, Canonical;
    EncodedIsCanonical(Decoded(s));
    if Canonical(s) {
      CanonicalRoundTrip(s);
    }
  }
}
