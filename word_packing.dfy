/** iRacingSDK.MakeLong, HiWord and LoWord: packing two shorts into the int
    parameters of a posted window message, and unpacking them. */
module WordPacking {
  import opened Memory

  /** MakeLong(lowPart, highPart): `(int)(((ushort)lowPart) | (uint)(highPart << 16))`.
      The ushort occupies bits 0..15 and the shifted high part bits 16..31,
      so the OR is their sum (DisjointOrIsSum); the final cast wraps. */
  function MakeLong(lowPart: int, highPart: int): (r: int)
    requires IsInt16(lowPart) && IsInt16(highPart)
    ensures IsInt32(r)
  {
    Wrap32(highPart * 0x1_0000 + lowPart % 0x1_0000)
  }

  /** HiWord(dword): `(short)(dword >> 16)`; the arithmetic shift is a floor
      division. */
  function HiWord(dword: int): (r: int)
    ensures IsInt16(r)
  {
    Wrap16(dword / 0x1_0000)
  }

  /** LoWord(dword): `(short)dword`. */
  function LoWord(dword: int): (r: int)
    ensures IsInt16(r)
  {
    Wrap16(dword)
  }

  /** Bits 0..15 and bits 16..31 do not overlap: OR is addition. */
  lemma DisjointOrIsSum(low: bv32, high: bv32)
    requires low < 0x1_0000
    ensures low | (high << 16) == low + (high << 16)
  {
  }

  /** The packed value is the plain sum when it fits: no wrap is needed. */
  lemma MakeLongExact(lowPart: int, highPart: int)
    requires IsInt16(lowPart) && IsInt16(highPart)
    ensures MakeLong(lowPart, highPart) == highPart * 0x1_0000 + lowPart % 0x1_0000
  {
    var s := highPart * 0x1_0000 + lowPart % 0x1_0000;
    assert -0x8000 * 0x1_0000 <= highPart * 0x1_0000 <= 0x7FFF * 0x1_0000;
    assert IsInt32(s);
  }

  /** LoWord recovers the low short for every pair of shorts. */
  lemma LoWordOfMakeLong(lowPart: int, highPart: int)
    requires IsInt16(lowPart) && IsInt16(highPart)
    ensures LoWord(MakeLong(lowPart, highPart)) == lowPart
  {
    MakeLongExact(lowPart, highPart);
    var d := MakeLong(lowPart, highPart);
    var u := lowPart % 0x1_0000;
    assert d == highPart * 0x1_0000 + u;
    // d and lowPart differ by a multiple of 2^16, and lowPart is a short
    assert lowPart - u == 0x1_0000 * (lowPart / 0x1_0000);
    assert d - lowPart == 0x1_0000 * (highPart - lowPart / 0x1_0000);
    Wrap16Congruent(d, lowPart);
  }

  /** Two ints that are congruent modulo 2^16 have the same (short) cast. */
  lemma Wrap16Congruent(x: int, y: int)
    requires (x - y) % 0x1_0000 == 0
    ensures Wrap16(x) == Wrap16(y)
  {
    var k := (x - y) / 0x1_0000;
    assert x == y + k * 0x1_0000;
    assert (x + 0x8000) % 0x1_0000 == (y + 0x8000 + k * 0x1_0000) % 0x1_0000;
    assert (y + 0x8000 + k * 0x1_0000) % 0x1_0000 == (y + 0x8000) % 0x1_0000;
  }

  /** HiWord recovers the high short for every pair of shorts. */
  lemma HiWordOfMakeLong(lowPart: int, highPart: int)
    requires IsInt16(lowPart) && IsInt16(highPart)
    ensures HiWord(MakeLong(lowPart, highPart)) == highPart
  {
    MakeLongExact(lowPart, highPart);
    var u := lowPart % 0x1_0000;
    assert 0 <= u < 0x1_0000;
    assert (highPart * 0x1_0000 + u) / 0x1_0000 == highPart;
  }

  /** Every int is the packing of its two halves. */
  lemma MakeLongOfWords(dword: int)
    requires IsInt32(dword)
    ensures MakeLong(LoWord(dword), HiWord(dword)) == dword
  {
    var hi := dword / 0x1_0000;
    var lo := dword % 0x1_0000;
    assert dword == hi * 0x1_0000 + lo;
    assert -0x8000 <= hi < 0x8000;
    assert HiWord(dword) == hi;
    var l := LoWord(dword);
    assert (dword - l) % 0x1_0000 == 0;
    assert l % 0x1_0000 == lo by {
      var k := (dword - l) / 0x1_0000;
      assert l == dword - k * 0x1_0000;
      assert l == lo + (hi - k) * 0x1_0000;
    }
    MakeLongExact(l, hi);
  }
}
