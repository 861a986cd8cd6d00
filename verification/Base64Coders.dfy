/** The loops of src/wp_base64.cpp over their scratch arrays, proved against `Base64`. */
module Base64Coders {
  import opened Text
  import opened Base64

  const UINT_MAX := 0xFFFF_FFFF

  method SplitThree(three: array<Byte>, four: array<Byte>)
    requires three.Length == 3 && four.Length == 4 && three != four
    modifies four
    ensures four[..] == Quad(three[0], three[1], three[2])
  {
    var s0 := (three[0] & 0xfc) >> 2;
    var s1 := ((three[0] & 0x03) << 4) + ((three[1] & 0xf0) >> 4);
    var s2 := ((three[1] & 0x0f) << 2) + ((three[2] & 0xc0) >> 6);
    var s3 := three[2] & 0x3f;
    assert Quad(three[0], three[1], three[2]) == [s0, s1, s2, s3];
    hide Quad;
    four[0], four[1], four[2], four[3] := s0, s1, s2, s3;
    assert four[..] == [s0, s1, s2, s3];
  }

  /** Appends the symbols of the first `n` entries. */
  method AppendSymbols(four: array<Byte>, n: nat, text: string) returns (longer: string)
    requires four.Length == 4 && n <= 4 && Sextets(four[..])
    ensures Sextets(four[..n]) && longer == text + Symbols(four[..n])
  {
    hide Symbol, IsSextet;
    longer := text;
    var j := 0;
    while j < n
      invariant j <= n && Sextets(four[..j]) && longer == text + Symbols(four[..j])
    {
      assert four[..][j] == four[j];
      assert Symbols(four[..j + 1]) == Symbols(four[..j]) + [Symbol(four[j])];
      longer := longer + [Symbol(four[j])];
      j := j + 1;
    }
  }

  lemma EncodedNext(b: seq<Byte>)
    requires |b| >= 3
    ensures Encoded(b) == Symbols(Quad(b[0], b[1], b[2])) + Encoded(b[3..])
  {
    hide Quad, Symbols;
  }

  lemma EncodedRest(b: seq<Byte>)
    requires |b| == 1 || |b| == 2
    ensures |b| == 1 ==> Encoded(b) == Symbols(Quad(b[0], 0, 0)[..2]) + "=="
    ensures |b| == 2 ==> Encoded(b) == Symbols(Quad(b[0], b[1], 0)[..3]) + "="
  {
    hide Quad, Symbols;
  }

  lemma EncodedNothing()
    ensures Encoded([]) == ""
  {
  }

  /** The last group: zeros for the missing bytes, `=` for the missing symbols. */
  method EncodeLast(three: array<Byte>, four: array<Byte>, count: nat, text: string) returns (longer: string)
    requires three.Length == 3 && four.Length == 4 && three != four && 1 <= count <= 2
    modifies three, four
    ensures longer == text + Encoded(old(three[..count]))
  {
    hide Quad, Symbols, Encoded, IsSextet;
    ghost var b := three[..count];
    var j := count;
    while j < 3
      invariant count <= j <= 3
      invariant three[..count] == b
      invariant forall k | count <= k < j :: three[k] == 0
    {
      three[j] := 0;
      j := j + 1;
    }
    SplitThree(three, four);
    assert b[0] == three[0] && (count == 2 ==> b[1] == three[1]);
    EncodedRest(b);
    longer := AppendSymbols(four, count + 1, text);
    assert four[..count + 1] == four[..][..count + 1];
    ghost var symbols := Symbols(four[..count + 1]);
    var i := count;
    while i < 3
      invariant count <= i <= 3
      invariant longer == text + symbols + "=="[..i - count]
    {
      longer := longer + "=";
      assert "=="[..i - count] + "=" == "=="[..i - count + 1];
      i := i + 1;
    }
    assert longer == text + (symbols + "=="[..3 - count]);
    assert "=="[..1] == "=" && "=="[..2] == "==";
  }

  method EncodeGroup(three: array<Byte>, four: array<Byte>, text: string) returns (longer: string)
    requires three.Length == 3 && four.Length == 4 && three != four
    modifies four
    ensures longer == text + Symbols(Quad(three[0], three[1], three[2]))
  {
    hide Quad, Symbol, IsSextet;
    SplitThree(three, four);
    assert four[..4] == four[..];
    longer := AppendSymbols(four, 4, text);
  }

  method Base64Encode(bytes: seq<Byte>) returns (text: string)
    requires |bytes| <= UINT_MAX
    ensures text == Encoded(bytes)
  {
    hide *;
    text := "";
    var three := new Byte[3];
    var four := new Byte[4];
    var i, pos := 0, 0;
    ghost var group := bytes;
    while pos != |bytes|
      invariant 0 <= i < 3 && i <= pos <= |bytes| && group == bytes[pos - i..]
      invariant forall k | 0 <= k < i :: three[k] == group[k]
      invariant text + Encoded(group) == Encoded(bytes)
      decreases |bytes| - pos
    {
      three[i] := bytes[pos];
      assert group[i] == bytes[pos];
      i := i + 1;
      pos := pos + 1;
      if i == 3 {
        EncodedNext(group);
        text := EncodeGroup(three, four, text);
        group := group[3..];
        i := 0;
      }
    }
    assert group == three[..i];
    if i != 0 {
      text := EncodeLast(three, four, i, text);
    } else {
      EncodedNothing();
    }
  }

  /** The slots of the array hold first characters, then their values, both as numbers. */
  type Slot8 = n: int | 0 <= n < 256

  /** Replaces the characters in the four slots by their values. */
  method LookUpFour(four: array<Slot8>)
    requires four.Length == 4
    modifies four
    ensures forall k | 0 <= k < 4 :: four[k] == ValueCode(old(four[k]) as char)
  {
    hide ValueCode;
    var i := 0;
    while i < 4
      invariant i <= 4
      invariant forall k | 0 <= k < i :: four[k] == ValueCode(old(four[k]) as char)
      invariant forall k | i <= k < 4 :: four[k] == old(four[k])
    {
      four[i] := ValueCode(four[i] as char);
      i := i + 1;
    }
  }

  /** The bytes that four sextets make up, by masks and shifts. */
  method Join(v0: Byte, v1: Byte, v2: Byte, v3: Byte) returns (b0: Byte, b1: Byte, b2: Byte)
    ensures Triple(v0, v1, v2, v3) == [b0, b1, b2]
  {
    b0 := (v0 << 2) + ((v1 & 0x30) >> 4);
    b1 := ((v1 & 0xf) << 4) + ((v2 & 0x3c) >> 2);
    b2 := ((v2 & 0x3) << 6) + v3;
  }

  method JoinFour(four: array<Slot8>, three: array<Byte>)
    requires three.Length == 3 && four.Length == 4
    modifies three
    ensures three[..] == Triple(four[0] as Byte, four[1] as Byte, four[2] as Byte, four[3] as Byte)
  {
    hide Triple;
    var b0, b1, b2 := Join(four[0] as Byte, four[1] as Byte, four[2] as Byte, four[3] as Byte);
    three[0], three[1], three[2] := b0, b1, b2;
    assert three[..] == [b0, b1, b2];
  }

  method AppendBytes(three: array<Byte>, n: nat, bytes: seq<Byte>) returns (longer: seq<Byte>)
    requires three.Length == 3 && n <= 3
    ensures longer == bytes + three[..n]
  {
    longer := bytes;
    var j := 0;
    while j < n
      invariant j <= n && longer == bytes + three[..j]
    {
      assert three[..j + 1] == three[..j] + [three[j]];
      longer := longer + [three[j]];
      j := j + 1;
    }
  }

  lemma NulHasNoValue()
    ensures ValueCode('\0') == 255
  {
    hide IndexOf, Alphabet;
    IndexIsTableValue('\0');
  }

  lemma ValueIsCode(c: char)
    ensures Value(c) == ValueCode(c) as Byte
  {
    hide ValueCode;
  }

  /** Fewer than four alphabet characters before the end or another character. */
  lemma DecodedLast(s: string, k: nat)
    requires k < 4 && k <= |s| && (k < |s| ==> !IsAlphabet(s[k]))
    requires forall i | 0 <= i < k :: IsAlphabet(s[i])
    ensures Decoded(s) == Tail(Values(s[..k]), NO_VALUE)
  {
    hide IsAlphabet, Value, Triple, AlphabetPrefix;
    PrefixOfAlphabet(s[..k], s[k..]);
    assert s == s[..k] + s[k..];
  }

  /** The slots after the search. */
  lemma SlotsOf(slots: seq<Slot8>, s: string)
    requires |slots| == 4 && |s| < 4
    requires forall k | 0 <= k < |s| :: slots[k] == ValueCode(s[k])
    requires forall k | |s| <= k < 4 :: slots[k] == ValueCode('\0')
    ensures forall k | 0 <= k < 4 :: slots[k] as Byte == Slot(Values(s), k, NO_VALUE)
  {
    hide Value, ValueCode;
    NulHasNoValue();
    forall k | 0 <= k < 4
      ensures slots[k] as Byte == Slot(Values(s), k, NO_VALUE)
    {
      if k < |s| {
        ValueIsCode(s[k]);
      }
    }
  }

  lemma SameForAllFills(vs: seq<Byte>)
    requires |vs| < 4
    ensures forall fill: Byte :: Tail(vs, fill) == Tail(vs, NO_VALUE)
  {
    hide Tail;
    forall fill: Byte
      ensures Tail(vs, fill) == Tail(vs, NO_VALUE)
    {
      FillDoesNotMatter(vs, fill, NO_VALUE);
    }
  }

  /** The last group: the slots without a character are cleared, so the search finds nothing for
      them and leaves 255; the bytes are those for any other value in them. `s` is the text of the group. */
  method DecodeLast(four: array<Slot8>, three: array<Byte>, count: nat, bytes: seq<Byte>, ghost s: string)
    returns (longer: seq<Byte>)
    requires four.Length == 4 && three.Length == 3 && 1 <= count < 4
    requires |s| == count && forall k | 0 <= k < count :: four[k] as char == s[k]
    modifies four, three
    ensures forall fill: Byte :: longer == bytes + Tail(Values(s), fill)
  {
    hide Value, ValueCode, Triple;
    var j := count;
    while j < 4
      invariant count <= j <= 4
      invariant forall k | 0 <= k < count :: four[k] as char == s[k]
      invariant forall k | count <= k < j :: four[k] == 0
    {
      four[j] := 0;
      j := j + 1;
    }
    LookUpFour(four);
    ghost var vs := Values(s);
    SlotsOf(four[..], s);
    JoinFour(four, three);
    assert three[..count - 1] == three[..][..count - 1];
    longer := AppendBytes(three, count - 1, bytes);
    SameForAllFills(vs);
  }

  lemma AlphabetIsAscii(c: char)
    requires IsAlphabet(c)
    ensures c as int < 128 && c != '='
  {
  }

  lemma NothingDecoded(vs: seq<Byte>)
    requires vs == []
    ensures Tail(vs, NO_VALUE) == []
  {
  }

  /** A full group. */
  method DecodeGroup(four: array<Slot8>, three: array<Byte>, bytes: seq<Byte>, ghost s: string)
    returns (longer: seq<Byte>)
    requires four.Length == 4 && three.Length == 3
    requires |s| >= 4 && forall k | 0 <= k < 4 :: four[k] as char == s[k]
    modifies four, three
    ensures longer == bytes + Triple(Value(s[0]), Value(s[1]), Value(s[2]), Value(s[3]))
  {
    hide Value, ValueCode, Triple;
    LookUpFour(four);
    ValueIsCode(s[0]);
    ValueIsCode(s[1]);
    ValueIsCode(s[2]);
    ValueIsCode(s[3]);
    JoinFour(four, three);
    assert three[..3] == three[..];
    longer := AppendBytes(three, 3, bytes);
  }

  /** Lengths above `INT_MAX` do not fit the program's counter. */
  method Base64Decode(text: string) returns (bytes: seq<Byte>)
    requires |text| <= INT_MAX
    ensures bytes == Decoded(text) == Decoded(AlphabetPrefix(text))
  {
    hide *;
    DecodesPrefixOnly(text, text);
    bytes := [];
    var four := new Slot8[4];
    var three := new Byte[3];
    var i, pos := 0, 0;
    ghost var rest := text;
    while pos < |text| && text[pos] != '=' && IsAlphabet(text[pos])
      invariant 0 <= i < 4 && i <= pos <= |text| && rest == text[pos - i..]
      invariant forall k | 0 <= k < i :: four[k] as char == rest[k]
      invariant forall k | 0 <= k < i :: IsAlphabet(rest[k])
      invariant bytes + Decoded(rest) == Decoded(text)
      decreases |text| - pos
    {
      AlphabetIsAscii(text[pos]);
      four[i] := text[pos] as int;
      assert rest[i] == text[pos];
      i := i + 1;
      pos := pos + 1;
      if i == 4 {
        FullGroup(rest);
        bytes := DecodeGroup(four, three, bytes, rest);
        rest := rest[4..];
        i := 0;
      }
    }
    if pos < |text| && IsAlphabet(text[pos]) {
      AlphabetIsAscii(text[pos]);
    }
    DecodedLast(rest, i);
    if i != 0 {
      bytes := DecodeLast(four, three, i, bytes, rest[..i]);
    } else {
      NothingDecoded(Values(rest[..0]));
    }
  }
}
