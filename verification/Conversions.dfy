/** Conversions between integers and bytes, apart from everything else because they are costly
    to prove in a larger context. */
module Conversions {

  lemma BackToInt(i: int)
    requires 0 <= i < 64
    ensures (i as bv8) as int == i
  {
  }

  lemma SmallFromInt(v: bv8)
    requires v as int < 64
    ensures v < 64
  {
  }

  lemma SmallByteOfInt(i: int)
    requires 0 <= i < 64
    ensures (i as bv8) as int == i && (i as bv8) < 64
  {
    BackToInt(i);
    SmallFromInt(i as bv8);
  }

  lemma IntOfSmallByte(v: bv8)
    requires v < 64
    ensures 0 <= v as int < 64 && (v as int) as bv8 == v
  {
  }
}
