/** The decoder that writes into a buffer of given size (src/wp_base64.cpp:147-199): it skips
    every character outside the alphabet and collects sextets in a 24-bit accumulator. */
module Base64Bounded {
  import opened Base64

  /** The alphabet characters of a text. */
  function Filtered(s: string): (t: string)
    ensures forall i | 0 <= i < |t| :: IsAlphabet(t[i])
  {
    if s == "" then ""
    else if IsAlphabet(s[0]) then [s[0]] + Filtered(s[1..])
    else Filtered(s[1..])
  }

  function Incoming(s: string): (vs: seq<Byte>) {
    Values(Filtered(s))
  }

  /** What the simple decoder makes of the text without the other characters. */
  function Full(s: string): seq<Byte> {
    Decoded(Filtered(s))
  }

  lemma FullIsBytes(s: string)
    ensures Full(s) == Bytes(Incoming(s))
  {
    hide Bytes, Values, IsAlphabet;
    PrefixOfAlphabet(Filtered(s), "");
    assert Filtered(s) + "" == Filtered(s);
  }

  lemma IncomingNext(s: string)
    requires s != ""
    ensures Incoming(s) == if IsAlphabet(s[0]) then [Value(s[0])] + Incoming(s[1..]) else Incoming(s[1..])
  {
    hide Value, IsAlphabet;
    if IsAlphabet(s[0]) {
      assert Filtered(s) == [s[0]] + Filtered(s[1..]);
    }
  }

  lemma IncomingNothing()
    ensures Incoming("") == []
  {
  }

  type Word = bv32

  /** One step of the accumulator: `a |= (n & 63) << (18 - bc)`. */
  function Collect(a: Word, n: Byte, bc: int): Word
    requires 0 <= bc <= 18
  {
    a | ((n as Word & 63) << (18 - bc))
  }

  function PackOne(n0: Byte): Word {
    (n0 as Word) << 18
  }

  function PackTwo(n0: Byte, n1: Byte): Word {
    PackOne(n0) | ((n1 as Word) << 12)
  }

  function PackThree(n0: Byte, n1: Byte, n2: Byte): Word {
    PackTwo(n0, n1) | ((n2 as Word) << 6)
  }

  function PackFour(n0: Byte, n1: Byte, n2: Byte, n3: Byte): Word {
    PackThree(n0, n1, n2) | (n3 as Word)
  }

  /** The sextets of an unfinished group in the accumulator. */
  function Packed(part: seq<Byte>): Word
    requires |part| < 4
  {
    if |part| == 0 then 0
    else if |part| == 1 then PackOne(part[0])
    else if |part| == 2 then PackTwo(part[0], part[1])
    else PackThree(part[0], part[1], part[2])
  }

  /** The stores of `a >> 16`, `a >> 8` and `a` into a `char`. */
  function High(a: Word): Byte {
    ((a >> 16) & 0xff) as Byte
  }

  function Middle(a: Word): Byte {
    ((a >> 8) & 0xff) as Byte
  }

  function Low(a: Word): Byte {
    (a & 0xff) as Byte
  }

  lemma MaskSextet(v: Byte)
    requires IsSextet(v)
    ensures (v as Word) & 63 == v as Word
  {
  }

  lemma CollectFirst(v: Byte)
    requires IsSextet(v)
    ensures Collect(0, v, 0) == PackOne(v)
  {
    MaskSextet(v);
  }

  lemma CollectSecond(n0: Byte, v: Byte)
    requires IsSextet(v)
    ensures Collect(PackOne(n0), v, 6) == PackTwo(n0, v)
  {
    hide PackOne;
    MaskSextet(v);
    assert 18 - 6 == 12;
  }

  lemma CollectThird(n0: Byte, n1: Byte, v: Byte)
    requires IsSextet(v)
    ensures Collect(PackTwo(n0, n1), v, 12) == PackThree(n0, n1, v)
  {
    hide PackTwo;
    MaskSextet(v);
    assert 18 - 12 == 6;
  }

  lemma CollectFourth(n0: Byte, n1: Byte, n2: Byte, v: Byte)
    requires IsSextet(v)
    ensures Collect(PackThree(n0, n1, n2), v, 18) == PackFour(n0, n1, n2, v)
  {
    hide PackThree;
    MaskSextet(v);
    assert (v as Word) << 0 == v as Word;
  }

  lemma CollectPart(part: seq<Byte>, v: Byte)
    requires |part| < 3 && IsSextet(v)
    ensures Collect(Packed(part), v, 6 * |part|) == Packed(part + [v])
  {
    hide IsSextet, Collect, PackOne, PackTwo, PackThree;
    if |part| == 0 {
      CollectFirst(v);
    } else if |part| == 1 {
      CollectSecond(part[0], v);
    } else {
      CollectThird(part[0], part[1], v);
    }
  }

  lemma FourBytes(n0: Byte, n1: Byte, n2: Byte, n3: Byte)
    requires IsSextet(n0) && IsSextet(n1) && IsSextet(n2) && IsSextet(n3)
    ensures var a := PackFour(n0, n1, n2, n3);
            [High(a), Middle(a), Low(a)] == Triple(n0, n1, n2, n3)
  {
  }

  lemma CollectLast(part: seq<Byte>, v: Byte)
    requires |part| == 3 && Sextets(part) && IsSextet(v)
    ensures var a := Collect(Packed(part), v, 18);
            [High(a), Middle(a), Low(a)] == Triple(part[0], part[1], part[2], v)
  {
    hide IsSextet, High, Middle, Low, Collect, PackThree, PackFour, Triple;
    CollectFourth(part[0], part[1], part[2], v);
    FourBytes(part[0], part[1], part[2], v);
  }

  lemma TwoBytes(n0: Byte, n1: Byte, n2: Byte)
    requires IsSextet(n0) && IsSextet(n1) && IsSextet(n2)
    ensures Triple(n0, n1, NO_VALUE, NO_VALUE)[..1] == [High(PackTwo(n0, n1))]
    ensures Triple(n0, n1, n2, NO_VALUE)[..2] == [High(PackThree(n0, n1, n2)), Middle(PackThree(n0, n1, n2))]
  {
  }

  lemma NoTail(part: seq<Byte>)
    requires |part| < 2
    ensures Tail(part, NO_VALUE) == []
  {
    hide Triple;
  }

  /** The bytes of the last group are in the accumulator. */
  lemma PackedTail(part: seq<Byte>)
    requires |part| < 4 && Sextets(part)
    ensures var a := Packed(part);
            Tail(part, NO_VALUE) == if |part| < 2 then []
                                    else if |part| == 2 then [High(a)]
                                    else [High(a), Middle(a)]
  {
    hide IsSextet, High, Middle, Low, PackOne, PackTwo, PackThree, Triple;
    if |part| >= 2 {
      TwoBytes(part[0], part[1], if |part| == 3 then part[2] else part[0]);
    } else {
      NoTail(part);
    }
  }

  lemma BytesOfFour(part: seq<Byte>, v: Byte, more: seq<Byte>)
    requires |part| == 3
    ensures Bytes(part + ([v] + more)) == Triple(part[0], part[1], part[2], v) + Bytes(more)
  {
    hide Triple;
    var vs := part + ([v] + more);
    assert vs[4..] == more;
  }

  lemma BytesOfLast(part: seq<Byte>)
    requires |part| < 4
    ensures Bytes(part + []) == Tail(part, NO_VALUE)
  {
    assert part + [] == part;
    hide Tail;
  }

  const MINUS_ONE: Byte := 0xff

  /** An entry of the table as the `signed char` that it is. */
  function TableEntry(c: char): Byte {
    var n := TableValue(c);
    if n == -1 then MINUS_ONE else n as Byte
  }

  lemma LookUp(c: char)
    ensures if IsAlphabet(c) then TableEntry(c) == Value(c) && IsSextet(Value(c)) && Value(c) != MINUS_ONE
            else TableEntry(c) == MINUS_ONE
  {
    NotInTable(c);
    IndexIsTableValue(c);
    if IsAlphabet(c) {
      ValueOfAlphabet(c);
    }
    hide IndexOf, Alphabet, IsAlphabet, TableValue;
  }

  /** `dst` holds `done` and nothing else of it has changed. */
  predicate Holds(dst: seq<Byte>, was: seq<Byte>, done: seq<Byte>) {
    |done| <= |dst| == |was| && dst == done + was[|done|..]
  }

  lemma HoldsMore(dst: seq<Byte>, was: seq<Byte>, done: seq<Byte>, b: Byte)
    requires Holds(dst, was, done) && |done| < |dst|
    ensures Holds(dst[|done| := b], was, done + [b])
    ensures Holds(dst[..|done|] + [b] + dst[|done| + 1..], was, done + [b])
  {
    assert dst[..|done|] + [b] + dst[|done| + 1..] == dst[|done| := b];
  }

  /** The result as stated for the whole: `count` bytes of `full` and the old rest. */
  predicate Finished(dst: seq<Byte>, was: seq<Byte>, size: nat, count: nat, full: seq<Byte>) {
    && count == (if |full| < size then |full| else size)
    && count <= |was| && dst == full[..count] + was[count..]
  }

  /** Between two characters: `done` has been written, `part` is in the accumulator, `left` is
      still to come. */
  predicate Pending(full: seq<Byte>, done: seq<Byte>, part: seq<Byte>, left: seq<Byte>, a: Word, bc: int) {
    |part| < 4 && Sextets(part) && bc == 6 * |part| && a == Packed(part) && full == done + Bytes(part + left)
  }

  lemma PendingStart(vs: seq<Byte>)
    ensures Pending(Bytes(vs), [], [], vs, 0, 0)
  {
    hide Bytes;
    assert [] + vs == vs && [] + Bytes(vs) == Bytes(vs);
  }

  lemma PendingMore(full: seq<Byte>, done: seq<Byte>, part: seq<Byte>, v: Byte, left: seq<Byte>, a: Word, bc: int)
    requires Pending(full, done, part, [v] + left, a, bc) && IsSextet(v) && bc < 18
    ensures Pending(full, done, part + [v], left, Collect(a, v, bc), bc + 6)
  {
    hide Bytes, Packed, Collect, IsSextet;
    CollectPart(part, v);
    assert part + ([v] + left) == part + [v] + left;
  }

  lemma PackedNothing()
    ensures Packed([]) == 0 && Sextets([])
  {
  }

  lemma PendingGroup(full: seq<Byte>, done: seq<Byte>, part: seq<Byte>, v: Byte, left: seq<Byte>, a: Word, bc: int)
    requires Pending(full, done, part, [v] + left, a, bc) && IsSextet(v) && bc == 18
    ensures var w := Collect(a, v, bc);
            var b := [High(w), Middle(w), Low(w)];
            full == done + b + Bytes(left) && Pending(full, done + b, [], left, 0, 0)
  {
    CollectLast(part, v);
    PackedNothing();
    hide Bytes, Packed, Collect, IsSextet, High, Middle, Low, Triple;
    BytesOfFour(part, v, left);
    assert [] + left == left;
  }

  lemma PendingEnd(full: seq<Byte>, done: seq<Byte>, part: seq<Byte>, a: Word, bc: int)
    requires Pending(full, done, part, [], a, bc)
    ensures full == done + (if bc < 8 then [] else if bc < 16 then [High(a)]
                            else [High(a), Middle(a)])
    ensures 0 <= bc <= 18
  {
    BytesOfLast(part);
    hide Bytes, Packed, High, Middle, Low, Tail;
    PackedTail(part);
  }

  lemma PendingBits(full: seq<Byte>, done: seq<Byte>, part: seq<Byte>, left: seq<Byte>, a: Word, bc: int)
    requires Pending(full, done, part, left, a, bc)
    ensures 0 <= bc <= 18 && bc % 6 == 0
  {
  }

  lemma HoldsNothing(was: seq<Byte>)
    ensures Holds(was, was, [])
  {
  }

  lemma FinishedNothing(was: seq<Byte>, full: seq<Byte>)
    ensures Finished(was, was, 0, 0, full)
  {
  }

  lemma FinishedAt(dst: seq<Byte>, was: seq<Byte>, size: nat, done: seq<Byte>, more: seq<Byte>)
    requires Holds(dst, was, done) && |done| <= size && (more == [] || |done| == size)
    ensures Finished(dst, was, size, |done|, done + more)
  {
    assert (done + more)[..|done|] == done;
  }

  /** One write through the moving pointer, and the check for the end of the buffer. */
  method StoreByte(dst: array<Byte>, size: nat, start: nat, b: Byte,
                   ghost was: seq<Byte>, ghost done: seq<Byte>, ghost more: seq<Byte>)
    returns (count: nat, stop: bool)
    requires start < size <= dst.Length && start == |done| && Holds(dst[..], was, done)
    modifies dst
    ensures count == start + 1 <= size && stop == (count >= size)
    ensures Holds(dst[..], was, done + [b])
    ensures stop ==> Finished(dst[..], was, size, count, done + [b] + more)
  {
    hide Holds, Finished;
    HoldsMore(dst[..], was, done, b);
    dst[start] := b;
    count := start + 1;
    stop := count >= size;
    if stop {
      FinishedAt(dst[..], was, size, done + [b], more);
    }
  }

  /** The three bytes of a group. */
  method StoreGroup(dst: array<Byte>, size: nat, start: nat, a: Word,
                    ghost was: seq<Byte>, ghost done: seq<Byte>, ghost more: seq<Byte>)
    returns (count: nat, stop: bool)
    requires start < size <= dst.Length && start == |done| && Holds(dst[..], was, done)
    modifies dst
    ensures var b := [High(a), Middle(a), Low(a)];
            if stop then Finished(dst[..], was, size, count, done + b + more)
            else count == start + 3 < size && Holds(dst[..], was, done + b)
  {
    hide *;
    var b0, b1, b2 := High(a), Middle(a), Low(a);
    assert done + [b0] + ([b1, b2] + more) == done + [b0, b1, b2] + more;
    assert done + [b0] + [b1] + ([b2] + more) == done + [b0, b1, b2] + more;
    assert done + [b0] + [b1] + [b2] == done + [b0, b1, b2];
    count, stop := StoreByte(dst, size, start, b0, was, done, [b1, b2] + more);
    if !stop {
      count, stop := StoreByte(dst, size, count, b1, was, done + [b0], [b2] + more);
      if !stop {
        count, stop := StoreByte(dst, size, count, b2, was, done + [b0] + [b1], more);
      }
    }
  }

  /** The bytes of the last group. */
  method StoreTail(dst: array<Byte>, size: nat, start: nat, a: Word, bc: int,
                   ghost was: seq<Byte>, ghost done: seq<Byte>, ghost full: seq<Byte>)
    returns (count: nat)
    requires start < size <= dst.Length && start == |done| && Holds(dst[..], was, done)
    requires full == done + (if bc < 8 then [] else if bc < 16 then [High(a)]
                             else [High(a), Middle(a)])
    modifies dst
    ensures Finished(dst[..], was, size, count, full)
  {
    hide *;
    count := start;
    assert done + [] == done && full + [] == full;
    if bc >= 8 {
      var b0, b1 := High(a), Middle(a);
      assert done + [b0] + [b1] == done + [b0, b1] && done + [b0] + [] == done + [b0];
      var stop;
      count, stop := StoreByte(dst, size, count, b0, was, done, if bc >= 16 then [b1] else []);
      if stop {
        return;
      }
      if bc >= 16 {
        HoldsMore(dst[..], was, done + [b0], b1);
        dst[count] := b1;
        count := count + 1;
      }
    }
    FinishedAt(dst[..], was, size, full, []);
  }

  /** Decodes into `dst[..size]`. Exactly the first `size` bytes of the full decoding are written,
      or all if there are fewer, and nothing behind them. */
  method DecodeToData(s: string, dst: array<Byte>, size: nat) returns (count: nat)
    requires size <= dst.Length
    modifies dst
    ensures Finished(dst[..], old(dst[..]), size, count, Full(s))
  {
    hide *;
    ghost var was := dst[..];
    if size == 0 {
      FinishedNothing(was, Full(s));
      return 0;
    }
    count := 0;
    var bc, a := 0, 0 as Word;
    ghost var full, done, part, left := Full(s), [], [], Incoming(s);
    FullIsBytes(s);
    PendingStart(left);
    assert s[0..] == s;
    HoldsNothing(was);
    var i := 0;
    while i < |s|
      invariant i <= |s| && count < size && count == |done|
      invariant Holds(dst[..], was, done)
      invariant left == Incoming(s[i..]) && Pending(full, done, part, left, a, bc)
    {
      var n := TableEntry(s[i]);
      LookUp(s[i]);
      IncomingNext(s[i..]);
      assert s[i..][0] == s[i] && s[i..][1..] == s[i + 1..];
      i := i + 1;
      if n == MINUS_ONE {
        continue;
      }
      PendingBits(full, done, part, left, a, bc);
      left := Incoming(s[i..]);
      ghost var before, bits := a, bc;
      a := Collect(a, n, bc);
      bc := bc + 6;
      if bc > 18 {
        PendingGroup(full, done, part, n, left, before, bits);
        var stop;
        count, stop := StoreGroup(dst, size, count, a, was, done, Bytes(left));
        if stop {
          return;
        }
        done := done + [High(a), Middle(a), Low(a)];
        bc, a, part := 0, 0, [];
      } else {
        PendingMore(full, done, part, n, left, before, bits);
        part := part + [n];
      }
    }
    assert s[i..] == "";
    IncomingNothing();
    PendingEnd(full, done, part, a, bc);
    count := StoreTail(dst, size, count, a, bc, was, done, full);
  }
}
