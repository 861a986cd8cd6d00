/** When the two decoders of src/wp_base64.cpp give the same bytes: one stops at the first character
    outside the alphabet, the other skips it. */
module Base64Agree {
  import opened Base64
  import opened Base64Bounded

  /** The number of bytes that `n` sextets give. */
  function Size(n: nat): nat {
    n / 4 * 3 + (if n % 4 == 0 then 0 else n % 4 - 1)
  }

  lemma {:induction false} BytesSize(vs: seq<Byte>)
    ensures |Bytes(vs)| == Size(|vs|)
    decreases |vs|
  {
    hide Triple;
    if |vs| >= 4 {
      BytesSize(vs[4..]);
    }
  }

  /** Equally many bytes come of `p` and of `f` sextets only if they differ by a lone last one. */
  lemma SameSize(p: nat, f: nat)
    requires p <= f
    ensures Size(p) == Size(f) <==> f == p || (p % 4 == 0 && f == p + 1)
  {
    var i, j, q, g := p / 4, p % 4, f / 4, f % 4;
    assert p == 4 * i + j && f == 4 * q + g;
  }

  /** A single sextet in the last group gives no byte. */
  lemma {:induction false} LoneSextet(vs: seq<Byte>, v: Byte)
    requires |vs| % 4 == 0
    ensures Bytes(vs + [v]) == Bytes(vs)
    decreases |vs|
  {
    hide Triple;
    if vs == [] {
      assert [] + [v] == [v];
    } else {
      assert (vs + [v])[4..] == vs[4..] + [v];
      LoneSextet(vs[4..], v);
    }
  }

  lemma {:induction false} PrefixIsFiltered(s: string)
    ensures AlphabetPrefix(s) <= Filtered(s)
    decreases |s|
  {
    hide IsAlphabet;
    if s != "" {
      PrefixIsFiltered(s[1..]);
    }
  }

  /** The decoders agree on a text if and only if no alphabet character follows a foreign one, or
      just one that would begin a group. */
  lemma DecodersAgree(s: string)
    ensures var p, f := |AlphabetPrefix(s)|, |Filtered(s)|;
            Decoded(s) == Full(s) <==> f == p || (p % 4 == 0 && f == p + 1)
  {
    hide Bytes, Value, IsAlphabet, AlphabetPrefix, Filtered;
    PrefixIsFiltered(s);
    FullIsBytes(s);
    assert Decoded(s) == Bytes(Values(AlphabetPrefix(s)));
    var vs, ws := Values(AlphabetPrefix(s)), Incoming(s);
    assert vs == ws[..|vs|];
    hide Values, Size, Incoming, Full, Decoded;
    BytesSize(vs);
    BytesSize(ws);
    SameSize(|vs|, |ws|);
    if |ws| == |vs| + 1 && |vs| % 4 == 0 {
      assert ws == vs + [ws[|vs|]];
      LoneSextet(vs, ws[|vs|]);
    } else if |ws| == |vs| {
      assert ws == vs;
    }
  }
}
